/**
 * The binary decoder. Every parser maps its input to `Some(Parsed(rest, value))`, the
 * unconsumed suffix and the decoded value, or to `None` when it does not match. The
 * combinator structure of the source (sequencing with early failure, first-match
 * alternation, counted repetition, greedy repetition) is written out directly.
 */
module Parser {

  import opened Wrappers
  import opened Instructions
  import opened Encoding

  datatype Parsed<+T> = Parsed(rest: Bytes, value: T)

  /** Matches the single byte `b`. */
  function Tag(b: byte, input: Bytes): (r: Option<Bytes>)
    ensures r.Some? <==> |input| > 0 && input[0] == b
    ensures r.Some? ==> input == [b] + r.value
  {
    if |input| > 0 && input[0] == b then Some(input[1..]) else None
  }

  /** Takes one byte, whatever it is (the argument count of a declaration or call). */
  function TakeByte(input: Bytes): (r: Option<Parsed<byte>>)
    ensures r.Some? <==> |input| > 0
    ensures r.Some? ==> input == [r.value.value] + r.value.rest
  {
    if |input| > 0 then Some(Parsed(input[1..], input[0])) else None
  }

  /** One type-tag byte; exactly the bytes 10..19 match, each giving its own type. */
  function ParseType(input: Bytes): (r: Option<Parsed<DataType>>)
    ensures r.Some? <==> |input| > 0 && TYPE_VOID <= input[0] <= TYPE_STRUCT
    ensures r.Some? ==> input == EncodeType(r.value.value) + r.value.rest
  {
    if |input| == 0 then None
    else
      var ty :- TypeOfTag(input[0]);
      Some(Parsed(input[1..], ty))
  }

  /** Exactly four bytes, taken verbatim (no byte-order conversion happens here). */
  function ParseInt(input: Bytes): (r: Option<Parsed<Bytes>>)
    ensures r.Some? <==> |input| >= 4
    ensures r.Some? ==> |r.value.value| == 4 && input == r.value.value + r.value.rest
  {
    if |input| < 4 then None else Some(Parsed(input[4..], input[..4]))
  }

  /** The longest NUL-free prefix of the input. */
  function TakeWhileNonNul(input: Bytes): (prefix: Bytes)
    ensures prefix <= input && NulFree(prefix)
    ensures |prefix| < |input| ==> input[|prefix|] == 0
  {
    if |input| == 0 || input[0] == 0 then [] else [input[0]] + TakeWhileNonNul(input[1..])
  }

  /**
   * A NUL-terminated string: the NUL-free run before the first 0x00, with that one
   * terminator consumed. Fails exactly when the input holds no 0x00.
   */
  function ParseString(input: Bytes): (r: Option<Parsed<Bytes>>)
    ensures r.Some? <==> 0 in input
    ensures r.Some? ==> NulFree(r.value.value) && input == EncodeString(r.value.value) + r.value.rest
  {
    var data := TakeWhileNonNul(input);
    var rest := input[|data|..];
    assert input == data + rest;
    if |rest| < 1 then None
    else
      assert input == data + [0] + rest[1..];
      Some(Parsed(rest[1..], data))
  }

  /** A literal: tag 13 and a 4-byte payload, or tag 15 and a string; every other tag fails. */
  function ParseLiteral(input: Bytes): (r: Option<Parsed<Literal>>)
    ensures r.Some? ==> |input| > 0 && input[0] in {TYPE_INT, TYPE_STRING}
    ensures r.Some? ==> WellFormedLiteral(r.value.value) && input == EncodeLiteral(r.value.value) + r.value.rest
  {
    var asInt :=
      match Tag(TYPE_INT, input)
      case None => None
      case Some(payload) =>
        match ParseInt(payload)
        case None => None
        case Some(p) => Some(Parsed(p.rest, Literal(Int, p.value)));
    if asInt.Some? then asInt
    else
      var payload :- Tag(TYPE_STRING, input);
      var p :- ParseString(payload);
      assert input == EncodeType(String) + EncodeString(p.value) + p.rest;
      Some(Parsed(p.rest, Literal(String, p.value)))
  }

  /** An inline literal operand: access tag 20 followed by a literal. */
  function ParseAccessLiteral(input: Bytes): (r: Option<Parsed<Literal>>)
    ensures r.Some? ==> WellFormedLiteral(r.value.value)
    ensures r.Some? ==> input == [ACCESS_LITERAL] + EncodeLiteral(r.value.value) + r.value.rest
  {
    var afterTag :- Tag(ACCESS_LITERAL, input);
    ParseLiteral(afterTag)
  }

  /** A memory operand: access tag 21 followed by the location string. */
  function ParseAccessMemory(input: Bytes): (r: Option<Parsed<MemoryLocation>>)
    ensures r.Some? ==> NulFree(r.value.value)
    ensures r.Some? ==> input == [ACCESS_MEMORY] + EncodeString(r.value.value) + r.value.rest
  {
    var afterTag :- Tag(ACCESS_MEMORY, input);
    ParseString(afterTag)
  }

  /** An operand: the literal form is tried first, then the memory form. */
  function ParseAccessData(input: Bytes): (r: Option<Parsed<AccessData>>)
    ensures r.Some? ==> |input| > 0
    ensures r.Some? ==> (input[0] == ACCESS_LITERAL <==> r.value.value.LiteralAccess?)
    ensures r.Some? ==> (input[0] == ACCESS_MEMORY <==> r.value.value.MemoryAccess?)
    ensures r.Some? ==> WellFormedAccess(r.value.value) && input == EncodeAccess(r.value.value) + r.value.rest
  {
    match ParseAccessLiteral(input)
    case Some(p) => Some(Parsed(p.rest, LiteralAccess(p.value)))
    case None =>
      var p :- ParseAccessMemory(input);
      Some(Parsed(p.rest, MemoryAccess(p.value)))
  }

  /** Exactly `n` operands in a row, in order. */
  function ParseAccessList(input: Bytes, n: nat): (r: Option<Parsed<seq<AccessData>>>)
    ensures r.Some? ==> |r.value.value| == n
    ensures r.Some? ==> forall i :: 0 <= i < n ==> WellFormedAccess(r.value.value[i])
    ensures r.Some? ==> input == EncodeAccessList(r.value.value) + r.value.rest
    decreases n
  {
    if n == 0 then Some(Parsed(input, []))
    else
      var first :- ParseAccessData(input);
      var others :- ParseAccessList(first.rest, n - 1);
      var args := [first.value] + others.value;
      assert args[1..] == others.value;
      Some(Parsed(others.rest, args))
  }

  /** A store action: opcode 30, the target location, one operand. */
  function ParseStoreMemory(input: Bytes): (r: Option<Parsed<Action>>)
    ensures r.Some? ==> r.value.value.StoreMemory?
    ensures r.Some? ==> WellFormedAction(r.value.value) && input == EncodeAction(r.value.value) + r.value.rest
  {
    var afterTag :- Tag(STORE_MEMORY, input);
    var location :- ParseString(afterTag);
    var data :- ParseAccessData(location.rest);
    var action := StoreMemory(location.value, data.value);
    Regroup4([STORE_MEMORY], EncodeString(location.value), EncodeAccess(data.value), data.rest);
    Some(Parsed(data.rest, action))
  }

  /** A free action: opcode 31 and the location. */
  function ParseFreeMemory(input: Bytes): (r: Option<Parsed<Action>>)
    ensures r.Some? ==> r.value.value.FreeMemory?
    ensures r.Some? ==> WellFormedAction(r.value.value) && input == EncodeAction(r.value.value) + r.value.rest
  {
    var afterTag :- Tag(FREE_MEMORY, input);
    var location :- ParseString(afterTag);
    Some(Parsed(location.rest, FreeMemory(location.value)))
  }

  /** A declared parameter: its type tag, then its name. */
  function ParseFunctionArgument(input: Bytes): (r: Option<Parsed<FunctionArgument>>)
    ensures r.Some? ==> WellFormedArgument(r.value.value) && input == EncodeArgument(r.value.value) + r.value.rest
  {
    var ty :- ParseType(input);
    var location :- ParseString(ty.rest);
    Some(Parsed(location.rest, FunctionArgument(ty.value, location.value)))
  }

  /** Exactly `n` declared parameters in a row, in order. */
  function ParseArgumentList(input: Bytes, n: nat): (r: Option<Parsed<seq<FunctionArgument>>>)
    ensures r.Some? ==> |r.value.value| == n
    ensures r.Some? ==> forall i :: 0 <= i < n ==> WellFormedArgument(r.value.value[i])
    ensures r.Some? ==> input == EncodeArgumentList(r.value.value) + r.value.rest
    decreases n
  {
    if n == 0 then Some(Parsed(input, []))
    else
      var first :- ParseFunctionArgument(input);
      var others :- ParseArgumentList(first.rest, n - 1);
      var params := [first.value] + others.value;
      assert params[1..] == others.value;
      Some(Parsed(others.rest, params))
  }

  /**
   * A declaration: opcode 40, name, count byte, that many parameters, return type.
   * Statements are not decoded: the result has none and nothing after the return tag is consumed.
   */
  function ParseDeclareFunction(input: Bytes): (r: Option<Parsed<Action>>)
    ensures r.Some? ==> r.value.value.DeclareFunction? && r.value.value.statements == []
    ensures r.Some? ==> |r.value.value.params| == r.value.value.argCount as int
    ensures r.Some? ==> WellFormedAction(r.value.value) && input == EncodeAction(r.value.value) + r.value.rest
  {
    var afterTag :- Tag(DECLARE_FUNCTION, input);
    var location :- ParseString(afterTag);
    var argCount :- TakeByte(location.rest);
    var params :- ParseArgumentList(argCount.rest, argCount.value as nat);
    var returnTy :- ParseType(params.rest);
    var action := DeclareFunction(location.value, argCount.value, params.value, returnTy.value, []);
    Regroup6([DECLARE_FUNCTION], EncodeString(location.value), [argCount.value],
             EncodeArgumentList(params.value), EncodeType(returnTy.value), returnTy.rest);
    Some(Parsed(returnTy.rest, action))
  }

  /**
   * A call: opcode 41, callee name, count byte, that many operands, result location
   * (the empty string, a lone 0x00, when the result is to be discarded).
   */
  function ParseCallFunction(input: Bytes): (r: Option<Parsed<Action>>)
    ensures r.Some? ==> r.value.value.CallFunction?
    ensures r.Some? ==> |r.value.value.args| == r.value.value.argCount as int
    ensures r.Some? ==> WellFormedAction(r.value.value) && input == EncodeAction(r.value.value) + r.value.rest
  {
    var afterTag :- Tag(CALL_FUNCTION, input);
    var location :- ParseString(afterTag);
    var argCount :- TakeByte(location.rest);
    var args :- ParseAccessList(argCount.rest, argCount.value as nat);
    var resultLocation :- ParseString(args.rest);
    var action := CallFunction(location.value, argCount.value, args.value, resultLocation.value);
    Regroup6([CALL_FUNCTION], EncodeString(location.value), [argCount.value],
             EncodeAccessList(args.value), EncodeString(resultLocation.value), resultLocation.rest);
    Some(Parsed(resultLocation.rest, action))
  }

  /**
   * One action; the four forms are tried in order and the first that matches wins.
   * Since the opcodes differ, the first byte decides which form that can be.
   */
  function ParseAction(input: Bytes): (r: Option<Parsed<Action>>)
    ensures r.Some? ==> |input| > 0 && input[0] == Opcode(r.value.value)
    ensures r.Some? ==> |r.value.rest| < |input|
    ensures r.Some? ==> WellFormedAction(r.value.value) && input == EncodeAction(r.value.value) + r.value.rest
  {
    var store := ParseStoreMemory(input);
    if store.Some? then store
    else
      var free := ParseFreeMemory(input);
      if free.Some? then free
      else
        var declare := ParseDeclareFunction(input);
        if declare.Some? then declare
        else ParseCallFunction(input)
  }

  /**
   * A script: actions decoded greedily until the first position where no action
   * decodes; that suffix is returned as the residual. It never fails.
   */
  function ParseScript(input: Bytes): (r: Option<Parsed<seq<Action>>>)
    ensures r.Some? && ParseAction(r.value.rest).None?
    ensures forall i :: 0 <= i < |r.value.value| ==> WellFormedAction(r.value.value[i])
    ensures input == EncodeScript(r.value.value) + r.value.rest
    decreases |input|
  {
    match ParseAction(input)
    case None => Some(Parsed(input, []))
    case Some(first) =>
      var others := ParseScript(first.rest).value;
      var actions := [first.value] + others.value;
      assert actions[0] == first.value && actions[1..] == others.value;
      assert forall i :: 0 < i < |actions| ==> actions[i] == others.value[i - 1];
      assert EncodeScript(actions) == EncodeAction(first.value) + EncodeScript(others.value);
      Regroup3(EncodeAction(first.value), EncodeScript(others.value), others.rest);
      Some(Parsed(others.rest, actions))
  }

  /** Decoding an empty script gives no actions and no residual. */
  lemma ParseScriptOfEmpty()
    ensures ParseScript([]) == Some(Parsed([], []))
  {
  }

  // Round trips: decoding an encoding gives back the value and leaves exactly what followed it.

  /** The NUL-free run before a framed string's terminator is the string itself. */
  lemma {:induction false} TakeWhileOfFramed(s: Bytes, rest: Bytes)
    requires NulFree(s)
    ensures TakeWhileNonNul(EncodeString(s) + rest) == s
  {
    if s != [] {
      assert (EncodeString(s) + rest)[1..] == EncodeString(s[1..]) + rest;
      TakeWhileOfFramed(s[1..], rest);
    }
  }

  lemma ParseStringRoundTrip(s: Bytes, rest: Bytes)
    requires NulFree(s)
    ensures ParseString(EncodeString(s) + rest) == Some(Parsed(rest, s))
  {
    var input := EncodeString(s) + rest;
    TakeWhileOfFramed(s, rest);
    assert input[|s|..] == [0] + rest;
  }

  lemma ParseTypeRoundTrip(t: DataType, rest: Bytes)
    ensures ParseType(EncodeType(t) + rest) == Some(Parsed(rest, t))
  {
    TypeTagRoundTrip(t);
    assert (EncodeType(t) + rest)[1..] == rest;
  }

  lemma ParseLiteralRoundTrip(lit: Literal, rest: Bytes)
    requires WellFormedLiteral(lit)
    ensures ParseLiteral(EncodeLiteral(lit) + rest) == Some(Parsed(rest, lit))
  {
    var input := EncodeLiteral(lit) + rest;
    if lit.ty == Int {
      assert input == [TYPE_INT] + (lit.data + rest);
      assert (lit.data + rest)[..4] == lit.data && (lit.data + rest)[4..] == rest;
    } else {
      assert input == [TYPE_STRING] + (EncodeString(lit.data) + rest);
      ParseStringRoundTrip(lit.data, rest);
    }
  }

  lemma ParseAccessDataRoundTrip(a: AccessData, rest: Bytes)
    requires WellFormedAccess(a)
    ensures ParseAccessData(EncodeAccess(a) + rest) == Some(Parsed(rest, a))
  {
    match a
    case LiteralAccess(lit) =>
      assert EncodeAccess(a) + rest == [ACCESS_LITERAL] + (EncodeLiteral(lit) + rest);
      ParseLiteralRoundTrip(lit, rest);
    case MemoryAccess(source) =>
      assert EncodeAccess(a) + rest == [ACCESS_MEMORY] + (EncodeString(source) + rest);
      ParseStringRoundTrip(source, rest);
  }

  lemma {:induction false} ParseAccessListRoundTrip(args: seq<AccessData>, rest: Bytes)
    requires forall i :: 0 <= i < |args| ==> WellFormedAccess(args[i])
    ensures ParseAccessList(EncodeAccessList(args) + rest, |args|) == Some(Parsed(rest, args))
  {
    if args != [] {
      var tail := EncodeAccessList(args[1..]) + rest;
      assert EncodeAccessList(args) + rest == EncodeAccess(args[0]) + tail;
      ParseAccessDataRoundTrip(args[0], tail);
      assert ParseAccessData(EncodeAccessList(args) + rest) == Some(Parsed(tail, args[0]));
      ParseAccessListRoundTrip(args[1..], rest);
      assert ParseAccessList(tail, |args| - 1) == Some(Parsed(rest, args[1..]));
      assert [args[0]] + args[1..] == args;
    } else {
      assert EncodeAccessList(args) + rest == rest;
    }
  }

  lemma ParseFunctionArgumentRoundTrip(p: FunctionArgument, rest: Bytes)
    requires WellFormedArgument(p)
    ensures ParseFunctionArgument(EncodeArgument(p) + rest) == Some(Parsed(rest, p))
  {
    assert EncodeArgument(p) + rest == EncodeType(p.ty) + (EncodeString(p.location) + rest);
    ParseTypeRoundTrip(p.ty, EncodeString(p.location) + rest);
    ParseStringRoundTrip(p.location, rest);
  }

  lemma {:induction false} ParseArgumentListRoundTrip(params: seq<FunctionArgument>, rest: Bytes)
    requires forall i :: 0 <= i < |params| ==> WellFormedArgument(params[i])
    ensures ParseArgumentList(EncodeArgumentList(params) + rest, |params|) == Some(Parsed(rest, params))
  {
    if params != [] {
      var tail := EncodeArgumentList(params[1..]) + rest;
      assert EncodeArgumentList(params) + rest == EncodeArgument(params[0]) + tail;
      ParseFunctionArgumentRoundTrip(params[0], tail);
      assert ParseFunctionArgument(EncodeArgumentList(params) + rest) == Some(Parsed(tail, params[0]));
      ParseArgumentListRoundTrip(params[1..], rest);
      assert ParseArgumentList(tail, |params| - 1) == Some(Parsed(rest, params[1..]));
      assert [params[0]] + params[1..] == params;
    } else {
      assert EncodeArgumentList(params) + rest == rest;
    }
  }

  lemma ParseStoreMemoryRoundTrip(location: MemoryLocation, data: AccessData, rest: Bytes)
    requires WellFormedAction(StoreMemory(location, data))
    ensures ParseStoreMemory(EncodeAction(StoreMemory(location, data)) + rest)
         == Some(Parsed(rest, StoreMemory(location, data)))
  {
    Regroup4([STORE_MEMORY], EncodeString(location), EncodeAccess(data), rest);
    ParseStringRoundTrip(location, EncodeAccess(data) + rest);
    ParseAccessDataRoundTrip(data, rest);
  }

  lemma ParseFreeMemoryRoundTrip(location: MemoryLocation, rest: Bytes)
    requires WellFormedAction(FreeMemory(location))
    ensures ParseFreeMemory(EncodeAction(FreeMemory(location)) + rest) == Some(Parsed(rest, FreeMemory(location)))
  {
    assert EncodeAction(FreeMemory(location)) + rest == [FREE_MEMORY] + (EncodeString(location) + rest);
    ParseStringRoundTrip(location, rest);
  }

  lemma ParseDeclareFunctionRoundTrip(a: Action, rest: Bytes)
    requires a.DeclareFunction? && WellFormedAction(a)
    ensures ParseDeclareFunction(EncodeAction(a) + rest) == Some(Parsed(rest, a))
  {
    var afterCount := EncodeArgumentList(a.params) + (EncodeType(a.returnTy) + rest);
    Regroup6([DECLARE_FUNCTION], EncodeString(a.location), [a.argCount], EncodeArgumentList(a.params),
             EncodeType(a.returnTy), rest);
    ParseStringRoundTrip(a.location, [a.argCount] + afterCount);
    assert ([a.argCount] + afterCount)[1..] == afterCount;
    ParseArgumentListRoundTrip(a.params, EncodeType(a.returnTy) + rest);
    ParseTypeRoundTrip(a.returnTy, rest);
  }

  lemma ParseCallFunctionRoundTrip(a: Action, rest: Bytes)
    requires a.CallFunction? && WellFormedAction(a)
    ensures ParseCallFunction(EncodeAction(a) + rest) == Some(Parsed(rest, a))
  {
    var afterCount := EncodeAccessList(a.args) + (EncodeString(a.resultLocation) + rest);
    Regroup6([CALL_FUNCTION], EncodeString(a.location), [a.argCount], EncodeAccessList(a.args),
             EncodeString(a.resultLocation), rest);
    ParseStringRoundTrip(a.location, [a.argCount] + afterCount);
    assert ([a.argCount] + afterCount)[1..] == afterCount;
    ParseAccessListRoundTrip(a.args, EncodeString(a.resultLocation) + rest);
    ParseStringRoundTrip(a.resultLocation, rest);
  }

  lemma ParseActionRoundTrip(a: Action, rest: Bytes)
    requires WellFormedAction(a)
    ensures ParseAction(EncodeAction(a) + rest) == Some(Parsed(rest, a))
  {
    match a
    case StoreMemory(location, data) => ParseStoreMemoryRoundTrip(location, data, rest);
    case FreeMemory(location) => ParseFreeMemoryRoundTrip(location, rest);
    case DeclareFunction(_, _, _, _, _) => ParseDeclareFunctionRoundTrip(a, rest);
    case CallFunction(_, _, _, _) => ParseCallFunctionRoundTrip(a, rest);
  }

  /**
   * Encoding a list of well-formed actions and decoding it gives the list back, with
   * the bytes that followed as the residual, provided those bytes do not start an action.
   */
  /** One step of the greedy loop: a decoded action followed by the decoding of what it left. */
  lemma ParseScriptCons(input: Bytes, first: Parsed<Action>, others: Parsed<seq<Action>>)
    requires ParseAction(input) == Some(first) && ParseScript(first.rest) == Some(others)
    ensures ParseScript(input) == Some(Parsed(others.rest, [first.value] + others.value))
  {
  }

  lemma {:induction false} ParseScriptRoundTrip(actions: seq<Action>, rest: Bytes)
    requires forall i :: 0 <= i < |actions| ==> WellFormedAction(actions[i])
    requires ParseAction(rest).None?
    ensures ParseScript(EncodeScript(actions) + rest) == Some(Parsed(rest, actions))
  {
    if actions != [] {
      var input := EncodeScript(actions) + rest;
      var tail := EncodeScript(actions[1..]) + rest;
      assert ParseAction(input) == Some(Parsed(tail, actions[0])) by {
        Regroup3(EncodeAction(actions[0]), EncodeScript(actions[1..]), rest);
        ParseActionRoundTrip(actions[0], tail);
      }
      assert ParseScript(tail) == Some(Parsed(rest, actions[1..])) by {
        assert forall i :: 0 <= i < |actions| - 1 ==> actions[1..][i] == actions[i + 1];
        ParseScriptRoundTrip(actions[1..], rest);
      }
      ParseScriptCons(input, Parsed(tail, actions[0]), Parsed(rest, actions[1..]));
      assert [actions[0]] + actions[1..] == actions;
    } else {
      assert EncodeScript(actions) + rest == rest;
    }
  }

  /** The top-level round trip: a whole encoded program decodes with an empty residual. */
  lemma ParseScriptOfEncoding(actions: seq<Action>)
    requires forall i :: 0 <= i < |actions| ==> WellFormedAction(actions[i])
    ensures ParseScript(EncodeScript(actions)) == Some(Parsed([], actions))
  {
    assert EncodeScript(actions) + [] == EncodeScript(actions);
    ParseScriptRoundTrip(actions, []);
  }
}
