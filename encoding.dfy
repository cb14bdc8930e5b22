/**
 * The wire format written forwards: what bytes the decoder expects for each value.
 * The decoder in module Parser is proved to be the inverse of these encoders on
 * well-formed values, and every value it decodes is well formed.
 */
module Encoding {

  import opened Instructions

  /** A byte string that can travel as a NUL-terminated string. */
  predicate NulFree(s: Bytes)
  {
    0 !in s
  }

  /** The only literals the decoder accepts: a 4-byte Int or a NUL-free String. */
  predicate WellFormedLiteral(lit: Literal)
  {
    || (lit.ty == Int && |lit.data| == 4)
    || (lit.ty == String && NulFree(lit.data))
  }

  predicate WellFormedAccess(a: AccessData)
  {
    match a
    case LiteralAccess(lit) => WellFormedLiteral(lit)
    case MemoryAccess(source) => NulFree(source)
  }

  predicate WellFormedArgument(p: FunctionArgument)
  {
    NulFree(p.location)
  }

  /** An action the wire format can carry: NUL-free names and a count byte that matches its list. */
  predicate WellFormedAction(a: Action)
  {
    match a
    case StoreMemory(location, data) =>
      NulFree(location) && WellFormedAccess(data)
    case FreeMemory(location) =>
      NulFree(location)
    case DeclareFunction(location, argCount, params, _, statements) =>
      && NulFree(location)
      && |params| == argCount as int
      && (forall i :: 0 <= i < |params| ==> WellFormedArgument(params[i]))
      && statements == []
    case CallFunction(location, argCount, args, resultLocation) =>
      && NulFree(location)
      && |args| == argCount as int
      && (forall i :: 0 <= i < |args| ==> WellFormedAccess(args[i]))
      && NulFree(resultLocation)
  }

  function EncodeString(s: Bytes): Bytes
  {
    s + [0]
  }

  function EncodeType(t: DataType): Bytes
  {
    [TypeTag(t)]
  }

  /** Type tag and payload: a String payload is NUL-terminated, every other payload is verbatim. */
  function EncodeLiteral(lit: Literal): Bytes
  {
    EncodeType(lit.ty) + (if lit.ty == String then EncodeString(lit.data) else lit.data)
  }

  function EncodeAccess(a: AccessData): Bytes
  {
    match a
    case LiteralAccess(lit) => [ACCESS_LITERAL] + EncodeLiteral(lit)
    case MemoryAccess(source) => [ACCESS_MEMORY] + EncodeString(source)
  }

  function EncodeAccessList(args: seq<AccessData>): Bytes
  {
    if args == [] then [] else EncodeAccess(args[0]) + EncodeAccessList(args[1..])
  }

  function EncodeArgument(p: FunctionArgument): Bytes
  {
    EncodeType(p.ty) + EncodeString(p.location)
  }

  function EncodeArgumentList(params: seq<FunctionArgument>): Bytes
  {
    if params == [] then [] else EncodeArgument(params[0]) + EncodeArgumentList(params[1..])
  }

  function EncodeAction(a: Action): (r: Bytes)
    ensures |r| > 0 && r[0] == Opcode(a)
  {
    match a
    case StoreMemory(location, data) =>
      [STORE_MEMORY] + EncodeString(location) + EncodeAccess(data)
    case FreeMemory(location) =>
      [FREE_MEMORY] + EncodeString(location)
    case DeclareFunction(location, argCount, params, returnTy, _) =>
      [DECLARE_FUNCTION] + EncodeString(location) + [argCount] + EncodeArgumentList(params) + EncodeType(returnTy)
    case CallFunction(location, argCount, args, resultLocation) =>
      [CALL_FUNCTION] + EncodeString(location) + [argCount] + EncodeAccessList(args) + EncodeString(resultLocation)
  }

  function EncodeScript(actions: seq<Action>): Bytes
  {
    if actions == [] then [] else EncodeAction(actions[0]) + EncodeScript(actions[1..])
  }

  /** Regrouping of concatenations, used to line a decoder's successive remainders up with an encoding. */
  lemma Regroup3(a: Bytes, b: Bytes, c: Bytes)
    ensures a + b + c == a + (b + c)
  {
  }

  lemma Regroup4(a: Bytes, b: Bytes, c: Bytes, d: Bytes)
    ensures a + b + c + d == a + (b + (c + d))
  {
  }

  lemma Regroup6(a: Bytes, b: Bytes, c: Bytes, d: Bytes, e: Bytes, f: Bytes)
    ensures a + b + c + d + e + f == a + (b + (c + (d + (e + f))))
  {
  }
}
