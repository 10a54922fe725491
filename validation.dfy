/**
 * The bracket pre-check `validate` of src/lib.rs: a stack of open brackets, each close bracket
 * popping a matching open one. Leftover open brackets at the end are not checked.
 */
module Validation {
  import opened Wrappers
  import opened Tokenizer

  predicate IsOpen(t: Token) { t == LeftCurlyBracket || t == LeftSquareBracket }

  predicate IsClose(t: Token) { t == RightCurlyBracket || t == RightSquareBracket }

  /** The open bracket a close bracket must find on top of the stack. */
  function Opener(t: Token): Token
    requires IsClose(t)
  {
    if t == RightCurlyBracket then LeftCurlyBracket else LeftSquareBracket
  }

  /**
   * Scanning `ts` with the stack `stack` (top at the end): `Some` of the final stack, or `None`
   * as soon as a close bracket meets an empty stack or an open bracket of the other kind.
   */
  function Scan(ts: seq<Token>, stack: seq<Token>): Option<seq<Token>>
    decreases |ts|
  {
    if ts == [] then Some(stack)
    else if IsOpen(ts[0]) then Scan(ts[1..], stack + [ts[0]])
    else if IsClose(ts[0]) then
      if stack != [] && stack[|stack| - 1] == Opener(ts[0]) then Scan(ts[1..], stack[..|stack| - 1])
      else None
    else Scan(ts[1..], stack)
  }

  /**
   * The stack only ever holds open brackets, and grows by at most one per token: what is left
   * at the end is the open brackets still waiting for their partners.
   */
  lemma {:induction false} ScanStack(ts: seq<Token>, stack: seq<Token>)
    requires Scan(ts, stack).Some?
    requires forall i | 0 <= i < |stack| :: IsOpen(stack[i])
    ensures |Scan(ts, stack).value| <= |stack| + |ts|
    ensures forall i | 0 <= i < |Scan(ts, stack).value| :: IsOpen(Scan(ts, stack).value[i])
    decreases |ts|
  {
    if ts == [] {
    } else if IsOpen(ts[0]) {
      ScanStack(ts[1..], stack + [ts[0]]);
    } else if IsClose(ts[0]) {
      ScanStack(ts[1..], stack[..|stack| - 1]);
    } else {
      ScanStack(ts[1..], stack);
    }
  }

  /** What `validate` returns. */
  predicate IsValid(ts: seq<Token>)
    ensures ts != [] && IsClose(ts[0]) ==> !IsValid(ts)
  {
    Scan(ts, []).Some?
  }

  /**
   * `validate` (src/lib.rs:304-333): a `for` loop over the tokens with a `Vec` stack and an
   * `is_valid` flag that is cleared, ending the loop, on the first unmatched close bracket.
   */
  method Validate(tokens: seq<Token>) returns (isValid: bool)
    ensures isValid == IsValid(tokens)
  {
    var stack: seq<Token> := [];
    isValid := true;
    var i := 0;
    assert tokens[i..] == tokens;
    while i < |tokens|
      invariant i <= |tokens|
      invariant Scan(tokens, []) == Scan(tokens[i..], stack)
      decreases |tokens| - i
    {
      var token := tokens[i];
      assert tokens[i..][1..] == tokens[i + 1..];
      if token == LeftCurlyBracket {
        stack := stack + [LeftCurlyBracket];
      } else if token == LeftSquareBracket {
        stack := stack + [LeftSquareBracket];
      } else if token == RightCurlyBracket {
        var top := if stack == [] then None else Some(stack[|stack| - 1]);
        stack := if stack == [] then [] else stack[..|stack| - 1];
        if top != Some(LeftCurlyBracket) {
          isValid := false;
          break;
        }
      } else if token == RightSquareBracket {
        var top := if stack == [] then None else Some(stack[|stack| - 1]);
        stack := if stack == [] then [] else stack[..|stack| - 1];
        if top != Some(LeftSquareBracket) {
          isValid := false;
          break;
        }
      }
      i := i + 1;
    }
    assert isValid ==> tokens[i..] == [];
  }

  /** Scanning a concatenation is scanning the first part, then the second from where it left the stack. */
  lemma {:induction false} ScanAppend(a: seq<Token>, b: seq<Token>, stack: seq<Token>)
    ensures Scan(a + b, stack) == match Scan(a, stack) case None => None case Some(st) => Scan(b, st)
    decreases |a|
  {
    if a == [] {
      assert a + b == b;
    } else {
      assert (a + b)[1..] == a[1..] + b;
      if IsOpen(a[0]) {
        ScanAppend(a[1..], b, stack + [a[0]]);
      } else if IsClose(a[0]) {
        if stack != [] && stack[|stack| - 1] == Opener(a[0]) {
          ScanAppend(a[1..], b, stack[..|stack| - 1]);
        }
      } else {
        ScanAppend(a[1..], b, stack);
      }
    }
  }

  /** Only brackets, in order. */
  function Brackets(ts: seq<Token>): (r: seq<Token>)
    ensures forall i | 0 <= i < |r| :: IsOpen(r[i]) || IsClose(r[i])
  {
    if ts == [] then []
    else if IsOpen(ts[0]) || IsClose(ts[0]) then [ts[0]] + Brackets(ts[1..])
    else Brackets(ts[1..])
  }

  /** `validate` ignores every token that is not a bracket (src/lib.rs:328). */
  lemma {:induction false} ScanIgnoresNonBrackets(ts: seq<Token>, stack: seq<Token>)
    ensures Scan(ts, stack) == Scan(Brackets(ts), stack)
    decreases |ts|
  {
    if ts != [] {
      if IsOpen(ts[0]) {
        ScanIgnoresNonBrackets(ts[1..], stack + [ts[0]]);
        assert ([ts[0]] + Brackets(ts[1..]))[1..] == Brackets(ts[1..]);
      } else if IsClose(ts[0]) {
        if stack != [] && stack[|stack| - 1] == Opener(ts[0]) {
          ScanIgnoresNonBrackets(ts[1..], stack[..|stack| - 1]);
          assert ([ts[0]] + Brackets(ts[1..]))[1..] == Brackets(ts[1..]);
        }
      } else {
        ScanIgnoresNonBrackets(ts[1..], stack);
      }
    }
  }

  /**
   * There is no end-of-input check: without close brackets every token sequence validates,
   * whatever is left open (for example `[LeftCurlyBracket, String("a")]`).
   */
  lemma {:induction false} NoCloseAlwaysValid(ts: seq<Token>, stack: seq<Token>)
    requires forall i | 0 <= i < |ts| :: !IsClose(ts[i])
    ensures Scan(ts, stack).Some?
    decreases |ts|
  {
    if ts != [] {
      NoCloseAlwaysValid(ts[1..], if IsOpen(ts[0]) then stack + [ts[0]] else stack);
    }
  }

  /** Tokens that are not brackets leave the stack as it is. */
  lemma {:induction false} NonBracketsKeepStack(ts: seq<Token>, stack: seq<Token>)
    requires forall i | 0 <= i < |ts| :: !IsOpen(ts[i]) && !IsClose(ts[i])
    ensures Scan(ts, stack) == Some(stack)
    decreases |ts|
  {
    if ts != [] {
      NonBracketsKeepStack(ts[1..], stack);
    }
  }

  lemma UnclosedObjectValidates()
    ensures IsValid([LeftCurlyBracket, String("a")])
  {
    NoCloseAlwaysValid([LeftCurlyBracket, String("a")], []);
  }

  /**
   * A close bracket fails validation, however the input continues, when the open brackets left
   * by what precedes it are empty or end in the other kind (src/lib.rs:312-327).
   */
  lemma {:induction false} MismatchedCloseInvalid(before: seq<Token>, close: Token, after: seq<Token>)
    requires IsClose(close)
    requires Scan(before, []).Some?
    requires var st := Scan(before, []).value; st == [] || st[|st| - 1] != Opener(close)
    ensures !IsValid(before + [close] + after)
  {
    ScanAppend(before, [close] + after, []);
    assert before + [close] + after == before + ([close] + after);
  }

  /**
   * The close bracket at `k` is where validation stops: what precedes it scans, and the stack it
   * leaves is empty or ends in the other kind of open bracket.
   */
  predicate MismatchAt(ts: seq<Token>, stack: seq<Token>, k: nat)
  {
    k < |ts| && IsClose(ts[k]) &&
    match Scan(ts[..k], stack)
    case None => false
    case Some(st) => st == [] || st[|st| - 1] != Opener(ts[k])
  }

  /** Validation fails only at a mismatched close bracket: nothing is checked at the end. */
  lemma {:induction false} ScanFailsAtMismatch(ts: seq<Token>, stack: seq<Token>)
    requires Scan(ts, stack).None?
    ensures exists k: nat :: MismatchAt(ts, stack, k)
    decreases |ts|
  {
    if IsClose(ts[0]) && (stack == [] || stack[|stack| - 1] != Opener(ts[0])) {
      assert ts[..0] == [];
      assert MismatchAt(ts, stack, 0);
    } else {
      var next := if IsOpen(ts[0]) then stack + [ts[0]] else if IsClose(ts[0]) then stack[..|stack| - 1] else stack;
      ScanFailsAtMismatch(ts[1..], next);
      var k: nat :| MismatchAt(ts[1..], next, k);
      assert ts[..k + 1][1..] == ts[1..][..k];
      assert MismatchAt(ts, stack, k + 1);
    }
  }

  /** A sequence fails validation exactly when it has a mismatched close bracket. */
  lemma {:induction false} InvalidIffMismatch(ts: seq<Token>)
    ensures !IsValid(ts) <==> exists k: nat :: MismatchAt(ts, [], k)
  {
    if !IsValid(ts) {
      ScanFailsAtMismatch(ts, []);
    }
    if exists k: nat :: MismatchAt(ts, [], k) {
      var k: nat :| MismatchAt(ts, [], k);
      MismatchedCloseInvalid(ts[..k], ts[k], ts[k + 1..]);
      assert ts[..k] + [ts[k]] + ts[k + 1..] == ts;
    }
  }

  /** Properly nested brackets, with non-bracket tokens between them. */
  datatype Nesting = Leaf(t: Token) | Curly(inner: seq<Nesting>) | Square(inner: seq<Nesting>)

  predicate WellFormed(n: Nesting)
  {
    match n
    case Leaf(t) => !IsOpen(t) && !IsClose(t)
    case Curly(inner) => forall i | 0 <= i < |inner| :: WellFormed(inner[i])
    case Square(inner) => forall i | 0 <= i < |inner| :: WellFormed(inner[i])
  }

  function Flatten(n: Nesting): seq<Token>
    decreases n, 1
  {
    match n
    case Leaf(t) => [t]
    case Curly(inner) => [LeftCurlyBracket] + FlattenAll(inner) + [RightCurlyBracket]
    case Square(inner) => [LeftSquareBracket] + FlattenAll(inner) + [RightSquareBracket]
  }

  function FlattenAll(ns: seq<Nesting>): seq<Token>
    decreases ns, 0
  {
    if ns == [] then [] else Flatten(ns[0]) + FlattenAll(ns[1..])
  }

  /** A properly nested group leaves the stack as it found it. */
  lemma {:induction false} ScanNested(n: Nesting, stack: seq<Token>)
    requires WellFormed(n)
    ensures Scan(Flatten(n), stack) == Some(stack)
    decreases n, 1
  {
    match n
    case Leaf(t) =>
    case Curly(inner) =>
      ScanNestedAll(inner, stack + [LeftCurlyBracket]);
      ScanAppend([LeftCurlyBracket] + FlattenAll(inner), [RightCurlyBracket], stack);
      ScanAppend([LeftCurlyBracket], FlattenAll(inner), stack);
      assert (stack + [LeftCurlyBracket])[..|stack|] == stack;
    case Square(inner) =>
      ScanNestedAll(inner, stack + [LeftSquareBracket]);
      ScanAppend([LeftSquareBracket] + FlattenAll(inner), [RightSquareBracket], stack);
      ScanAppend([LeftSquareBracket], FlattenAll(inner), stack);
      assert (stack + [LeftSquareBracket])[..|stack|] == stack;
  }

  lemma {:induction false} ScanNestedAll(ns: seq<Nesting>, stack: seq<Token>)
    requires forall i | 0 <= i < |ns| :: WellFormed(ns[i])
    ensures Scan(FlattenAll(ns), stack) == Some(stack)
    decreases ns, 0
  {
    if ns != [] {
      ScanNested(ns[0], stack);
      ScanNestedAll(ns[1..], stack);
      ScanAppend(Flatten(ns[0]), FlattenAll(ns[1..]), stack);
    }
  }

  /** Every properly nested token sequence validates. */
  lemma {:induction false} NestedIsValid(ns: seq<Nesting>)
    requires forall i | 0 <= i < |ns| :: WellFormed(ns[i])
    ensures IsValid(FlattenAll(ns))
  {
    ScanNestedAll(ns, []);
  }
}
