/**
 * The value model and the opcode table of the virtual machine: byte constants,
 * the ten data types, literals, operands, stored values and decoded actions.
 */
module Instructions {

  import opened Wrappers

  /** An unsigned 8-bit value, the unit of the wire format. */
  newtype byte = b: int | 0 <= b < 256

  type Bytes = seq<byte>

  /** A variable or function name: an opaque byte string, used without its NUL terminator. */
  type MemoryLocation = Bytes

  // Basic instructions
  /** The terminator byte; it also ends every string on the wire. No decoder reads it as an instruction. */
  const END: byte := 0

  // Type tags
  const TYPE_VOID: byte := 10
  const TYPE_BYTE: byte := 11
  const TYPE_BOOL: byte := 12
  const TYPE_INT: byte := 13
  const TYPE_FLOAT: byte := 14
  const TYPE_STRING: byte := 15
  const TYPE_UID: byte := 16
  const TYPE_FUNC: byte := 17
  const TYPE_TABLE: byte := 18
  const TYPE_STRUCT: byte := 19

  // Operand (access) tags
  const ACCESS_LITERAL: byte := 20
  const ACCESS_MEMORY: byte := 21

  // Action opcodes
  const STORE_MEMORY: byte := 30
  const FREE_MEMORY: byte := 31
  const DECLARE_FUNCTION: byte := 40
  const CALL_FUNCTION: byte := 41

  /** The closed set of value types; equality is structural. */
  datatype DataType = Void | Byte | Bool | Int | Float | String | UID | Func | Table | Struct

  /** An inline typed value embedded in the instruction stream. */
  datatype Literal = Literal(ty: DataType, data: Bytes)

  /** The only runtime value representation: a type tag and a raw payload. */
  datatype StoredData = StoredData(ty: DataType, data: Bytes)

  /** The distinguished empty value returned by functions that have nothing to return. */
  const NULL: StoredData := StoredData(Void, [])

  /** How an operand is supplied: inline, or by reference to a memory location. */
  datatype AccessData =
    | LiteralAccess(literal: Literal)
    | MemoryAccess(source: MemoryLocation)

  /** A declared (typed, named) parameter of a bytecode-defined function. */
  datatype FunctionArgument = FunctionArgument(ty: DataType, location: MemoryLocation)

  /**
   * One decoded unit of program behaviour. The source keeps each variant's payload
   * in a struct of its own; here the payload fields sit on the variant. `statements`
   * of a declaration is a list of unit values because statement decoding does not exist yet.
   */
  datatype Action =
    | StoreMemory(location: MemoryLocation, data: AccessData)
    | FreeMemory(location: MemoryLocation)
    | DeclareFunction(location: MemoryLocation, argCount: byte, params: seq<FunctionArgument>,
                      returnTy: DataType, statements: seq<()>)
    | CallFunction(location: MemoryLocation, argCount: byte, args: seq<AccessData>,
                   resultLocation: MemoryLocation)

  /** The wire tag of a data type. */
  function TypeTag(t: DataType): (b: byte)
    ensures TYPE_VOID <= b <= TYPE_STRUCT
  {
    match t
    case Void => TYPE_VOID
    case Byte => TYPE_BYTE
    case Bool => TYPE_BOOL
    case Int => TYPE_INT
    case Float => TYPE_FLOAT
    case String => TYPE_STRING
    case UID => TYPE_UID
    case Func => TYPE_FUNC
    case Table => TYPE_TABLE
    case Struct => TYPE_STRUCT
  }

  /** The data type a tag byte stands for, if any: exactly the bytes 10..19 are type tags. */
  function TypeOfTag(b: byte): (t: Option<DataType>)
    ensures t.Some? <==> TYPE_VOID <= b <= TYPE_STRUCT
    ensures t.Some? ==> TypeTag(t.value) == b
  {
    if b == TYPE_VOID then Some(Void)
    else if b == TYPE_BYTE then Some(Byte)
    else if b == TYPE_BOOL then Some(Bool)
    else if b == TYPE_INT then Some(Int)
    else if b == TYPE_FLOAT then Some(Float)
    else if b == TYPE_STRING then Some(String)
    else if b == TYPE_UID then Some(UID)
    else if b == TYPE_FUNC then Some(Func)
    else if b == TYPE_TABLE then Some(Table)
    else if b == TYPE_STRUCT then Some(Struct)
    else None
  }

  /** Tags are one per type: decoding a type's tag gives that type back, so TypeTag is injective. */
  lemma TypeTagRoundTrip(t: DataType)
    ensures TypeOfTag(TypeTag(t)) == Some(t)
  {
  }

  lemma TypeTagInjective(s: DataType, t: DataType)
    ensures TypeTag(s) == TypeTag(t) <==> s == t
  {
    TypeTagRoundTrip(s);
    TypeTagRoundTrip(t);
  }

  /** The opcode that introduces an action on the wire. */
  function Opcode(a: Action): (b: byte)
    ensures b in {STORE_MEMORY, FREE_MEMORY, DECLARE_FUNCTION, CALL_FUNCTION}
  {
    match a
    case StoreMemory(_, _) => STORE_MEMORY
    case FreeMemory(_) => FREE_MEMORY
    case DeclareFunction(_, _, _, _, _) => DECLARE_FUNCTION
    case CallFunction(_, _, _, _) => CALL_FUNCTION
  }

  /**
   * The three tag spaces (type tags, access tags, action opcodes) are pairwise disjoint,
   * so at most one alternative of each decoder choice can match a given first byte.
   */
  lemma TagSpacesDisjoint(t: DataType, a: Action)
    ensures ACCESS_LITERAL != ACCESS_MEMORY
    ensures TypeTag(t) != ACCESS_LITERAL && TypeTag(t) != ACCESS_MEMORY
    ensures Opcode(a) != TypeTag(t) && Opcode(a) != ACCESS_LITERAL && Opcode(a) != ACCESS_MEMORY
    ensures |{STORE_MEMORY, FREE_MEMORY, DECLARE_FUNCTION, CALL_FUNCTION}| == 4
  {
  }
}
