/**
 * The example program: two native functions (an adder and a printer) and the script
 * that calls them, as a concrete decode-and-execute test vector.
 */
module Addition {

  import opened Wrappers
  import opened Instructions
  import opened Encoding
  import Parser
  import opened Runtime

  const I32_MIN: int := -0x8000_0000
  const I32_MAX: int := 0x7fff_ffff

  predicate InI32(x: int)
  {
    I32_MIN <= x <= I32_MAX
  }

  /** The signed 32-bit value whose two's-complement big-endian bytes are `data[..4]`. */
  function I32FromBigEndian(data: Bytes): (x: int)
    requires |data| >= 4
    ensures InI32(x)
  {
    var u := ((data[0] as int * 256 + data[1] as int) * 256 + data[2] as int) * 256 + data[3] as int;
    if u >= 0x8000_0000 then u - 0x1_0000_0000 else u
  }

  /** The two's-complement big-endian bytes of a signed 32-bit value; the inverse of I32FromBigEndian. */
  function I32ToBigEndian(x: int): (data: Bytes)
    requires InI32(x)
    ensures |data| == 4 && I32FromBigEndian(data) == x
  {
    var u := if x < 0 then x + 0x1_0000_0000 else x;
    var u1 := u / 256;
    var u2 := u1 / 256;
    [(u2 / 256) as byte, (u2 % 256) as byte, (u1 % 256) as byte, (u % 256) as byte]
  }

  /**
   * The adder. Arity is checked first, then the type of each argument in order; then
   * the two big-endian payloads are added. A payload shorter than four bytes or a sum
   * outside the i32 range makes the host code panic.
   */
  function AddFunction(args: seq<StoredData>): (r: NativeResult)
    ensures |args| != 2 ==> r == Raised(InvalidArgumentCount(2, (|args| % 256) as byte))
    ensures |args| == 2 && args[0].ty != Int ==> r == Raised(InvalidArgument(Int, args[0].ty))
    ensures |args| == 2 && args[0].ty == Int && args[1].ty != Int ==> r == Raised(InvalidArgument(Int, args[1].ty))
    ensures r.Returned? <==>
      && |args| == 2 && args[0].ty == Int && args[1].ty == Int
      && |args[0].data| >= 4 && |args[1].data| >= 4
      && InI32(I32FromBigEndian(args[0].data) + I32FromBigEndian(args[1].data))
    ensures r.Returned? ==>
      && r.value.ty == Int && |r.value.data| == 4
      && I32FromBigEndian(r.value.data) == I32FromBigEndian(args[0].data) + I32FromBigEndian(args[1].data)
  {
    if |args| != 2 then Raised(InvalidArgumentCount(2, (|args| % 256) as byte))
    else if args[0].ty != Int then Raised(InvalidArgument(Int, args[0].ty))
    else if args[1].ty != Int then Raised(InvalidArgument(Int, args[1].ty))
    else if |args[0].data| < 4 || |args[1].data| < 4 then Panicked
    else
      var sum := I32FromBigEndian(args[0].data) + I32FromBigEndian(args[1].data);
      if !InI32(sum) then Panicked
      else Returned(StoredData(Int, I32ToBigEndian(sum)))
  }

  /**
   * Whether the printer, as written, can render argument k without panicking. Int and
   * Float read their four bytes from the FIRST argument, whatever k is.
   */
  predicate RendersAsWritten(args: seq<StoredData>, k: int)
    requires 0 <= k < |args|
  {
    match args[k].ty
    case Byte | Bool => |args[k].data| > 0
    case Int | Float => |args[0].data| >= 4
    case String => true
    case Void | UID | Func | Table | Struct => false
  }

  /**
   * The printer as written, from argument i on, as far as its outcome goes: it walks the
   * arguments in order, rejects Void, Func and Struct, panics on UID, Table and short
   * payloads, and returns NULL after the last one.
   */
  function PrintFromAsWritten(args: seq<StoredData>, i: nat): (r: NativeResult)
    requires i <= |args|
    ensures r.Returned? <==> forall k :: i <= k < |args| ==> RendersAsWritten(args, k)
    ensures r.Returned? ==> r.value == NULL
    ensures r.Raised? ==> exists k :: (i <= k < |args| && (forall j :: i <= j < k ==> RendersAsWritten(args, j))
                                      && args[k].ty in {Void, Func, Struct}
                                      && r.error == InvalidArgument(String, args[k].ty))
    ensures r.Panicked? ==> exists k :: (i <= k < |args| && (forall j :: i <= j < k ==> RendersAsWritten(args, j))
                                        && args[k].ty !in {Void, Func, Struct} && !RendersAsWritten(args, k))
    decreases |args| - i
  {
    if i == |args| then Returned(NULL)
    else
      match args[i].ty
      case Void | Func | Struct =>
        assert !RendersAsWritten(args, i);
        Raised(InvalidArgument(String, args[i].ty))
      case UID | Table =>
        assert !RendersAsWritten(args, i);
        Panicked
      case Byte | Bool =>
        if |args[i].data| == 0 then assert !RendersAsWritten(args, i); Panicked else PrintFromAsWritten(args, i + 1)
      case Int | Float =>
        if |args[0].data| < 4 then assert !RendersAsWritten(args, i); Panicked else PrintFromAsWritten(args, i + 1)
      case String => PrintFromAsWritten(args, i + 1)
  }

  function PrintFunctionAsWritten(args: seq<StoredData>): (r: NativeResult)
    ensures r.Returned? <==> forall k :: 0 <= k < |args| ==> RendersAsWritten(args, k)
    ensures r.Returned? ==> r == Returned(NULL)
    ensures r.Raised? ==> exists k :: (0 <= k < |args| && (forall j :: 0 <= j < k ==> RendersAsWritten(args, j))
                                      && args[k].ty in {Void, Func, Struct}
                                      && r.error == InvalidArgument(String, args[k].ty))
    ensures r.Panicked? ==> exists k :: (0 <= k < |args| && (forall j :: 0 <= j < k ==> RendersAsWritten(args, j))
                                        && args[k].ty !in {Void, Func, Struct} && !RendersAsWritten(args, k))
  {
    PrintFromAsWritten(args, 0)
  }

  /**
   * A second Int argument is rejected because of the FIRST argument's payload: a
   * String followed by a well-formed Int makes the printer as written panic.
   */
  lemma PrintAsWrittenReadsFirstArgument()
    ensures var args := [StoredData(String, []), StoredData(Int, FOUR)];
      && PrintFunctionAsWritten(args) == Panicked
      && PrintFunction(args) == Returned(NULL)
  {
    var args := [StoredData(String, []), StoredData(Int, FOUR)];
    assert !RendersAsWritten(args, 1);
    assert PrintFrom(args, 2) == Returned(NULL);
  }

  /** Whether the printer can render argument k from its own payload without panicking. */
  predicate Renders(arg: StoredData)
  {
    match arg.ty
    case Byte | Bool => |arg.data| > 0
    case Int | Float => |arg.data| >= 4
    case String => true
    case Void | UID | Func | Table | Struct => false
  }

  /**
   * The printer with each argument rendered from its own payload, from argument i on:
   * the same walk, the same rejections and the same NULL result.
   */
  function PrintFrom(args: seq<StoredData>, i: nat): (r: NativeResult)
    requires i <= |args|
    ensures r.Returned? <==> forall k :: i <= k < |args| ==> Renders(args[k])
    ensures r.Returned? ==> r.value == NULL
    ensures r.Raised? ==> exists k :: (i <= k < |args| && (forall j :: i <= j < k ==> Renders(args[j]))
                                      && args[k].ty in {Void, Func, Struct}
                                      && r.error == InvalidArgument(String, args[k].ty))
    ensures r.Panicked? ==> exists k :: (i <= k < |args| && (forall j :: i <= j < k ==> Renders(args[j]))
                                        && args[k].ty !in {Void, Func, Struct} && !Renders(args[k]))
    decreases |args| - i
  {
    if i == |args| then Returned(NULL)
    else
      match args[i].ty
      case Void | Func | Struct =>
        assert !Renders(args[i]);
        Raised(InvalidArgument(String, args[i].ty))
      case UID | Table =>
        assert !Renders(args[i]);
        Panicked
      case Byte | Bool =>
        if |args[i].data| == 0 then assert !Renders(args[i]); Panicked else PrintFrom(args, i + 1)
      case Int | Float =>
        if |args[i].data| < 4 then assert !Renders(args[i]); Panicked else PrintFrom(args, i + 1)
      case String => PrintFrom(args, i + 1)
  }

  /**
   * The printer: it returns NULL exactly when every argument renders, and otherwise
   * reports or panics on the first one that does not.
   */
  function PrintFunction(args: seq<StoredData>): (r: NativeResult)
    ensures r.Returned? <==> forall k :: 0 <= k < |args| ==> Renders(args[k])
    ensures r.Returned? ==> r == Returned(NULL)
    ensures r.Raised? ==> exists k :: (0 <= k < |args| && (forall j :: 0 <= j < k ==> Renders(args[j]))
                                      && args[k].ty in {Void, Func, Struct}
                                      && r.error == InvalidArgument(String, args[k].ty))
    ensures r.Panicked? ==> exists k :: (0 <= k < |args| && (forall j :: 0 <= j < k ==> Renders(args[j]))
                                        && args[k].ty !in {Void, Func, Struct} && !Renders(args[k]))
  {
    PrintFrom(args, 0)
  }

  // The script assembled by the example's main, and its two actions.

  const ADD: MemoryLocation := [97, 100, 100]                           // "add"
  const PRINT: MemoryLocation := [112, 114, 105, 110, 116]              // "print"
  const RESULT_1: MemoryLocation := [114, 101, 115, 117, 108, 116, 95, 49]  // "result_1"

  const ONE: Bytes := [0, 0, 0, 1]
  const THREE: Bytes := [0, 0, 0, 3]
  const FOUR: Bytes := [0, 0, 0, 4]

  /** The first instruction main assembles: call "add" on the literals Int 1 and Int 3, store at "result_1". */
  const AddCallBytes: Bytes :=
    [CALL_FUNCTION] + ADD + [0] + [2]
    + [ACCESS_LITERAL] + [TYPE_INT] + ONE
    + [ACCESS_LITERAL] + [TYPE_INT] + THREE
    + RESULT_1 + [0]

  /** The second: call "print" on the contents of "result_1", discarding the result. */
  const PrintCallBytes: Bytes :=
    [CALL_FUNCTION] + PRINT + [0] + [1]
    + [ACCESS_MEMORY] + RESULT_1 + [0]
    + [0]

  const Script: Bytes := AddCallBytes + PrintCallBytes

  const AddCall: Action :=
    CallFunction(ADD, 2, [LiteralAccess(Literal(Int, ONE)), LiteralAccess(Literal(Int, THREE))], RESULT_1)
  const PrintCall: Action :=
    CallFunction(PRINT, 1, [MemoryAccess(RESULT_1)], [])

  lemma EncodeAddCall()
    ensures EncodeAction(AddCall) == AddCallBytes
  {
    var one, three := LiteralAccess(Literal(Int, ONE)), LiteralAccess(Literal(Int, THREE));
    assert AddCall.args[1..] == [three] && [three][1..] == [];
    assert EncodeAccessList([three]) == EncodeAccess(three) + [];
    assert EncodeAccessList(AddCall.args) == EncodeAccess(one) + EncodeAccess(three);
  }

  lemma EncodePrintCall()
    ensures EncodeAction(PrintCall) == PrintCallBytes
  {
    assert PrintCall.args[1..] == [];
    assert EncodeAccessList(PrintCall.args) == [ACCESS_MEMORY] + RESULT_1 + [0] + [];
  }

  /** The script decodes to exactly the two calls, with nothing left over. */
  lemma ScriptDecodes()
    ensures Parser.ParseScript(Script) == Some(Parser.Parsed([], [AddCall, PrintCall]))
  {
    var actions := [AddCall, PrintCall];
    assert WellFormedAction(AddCall) by {
      assert NulFree(ADD) && NulFree(RESULT_1);
    }
    assert WellFormedAction(PrintCall) by {
      assert NulFree(PRINT) && NulFree(RESULT_1);
    }
    assert actions[1..] == [PrintCall] && [PrintCall][1..] == [];
    assert EncodeScript([PrintCall]) == EncodeAction(PrintCall) + [];
    assert EncodeScript(actions) == EncodeAction(AddCall) + EncodeAction(PrintCall);
    EncodeAddCall();
    EncodePrintCall();
    Parser.ParseScriptOfEncoding(actions);
  }

  /** The add call, with the adder registered, stores Int 4 at "result_1" in an empty memory. */
  lemma AddCallStores(definitions: Definitions)
    requires ADD in definitions && definitions[ADD] == Native(AddFunction)
    ensures Step(AddCall, map[], definitions) == Next(map[RESULT_1 := StoredData(Int, FOUR)])
  {
    var addArgs := [StoredData(Int, ONE), StoredData(Int, THREE)];
    assert ResolveArgs(AddCall.args, map[]) == Ok(addArgs) by {
      var one, three := LiteralAccess(Literal(Int, ONE)), LiteralAccess(Literal(Int, THREE));
      assert [] + [one] == [one] && [one] + [three] == AddCall.args;
      assert [] + [StoredData(Int, ONE)] == [StoredData(Int, ONE)];
      ResolveArgsSnoc([], one, map[], [], StoredData(Int, ONE));
      ResolveArgsSnoc([one], three, map[], [StoredData(Int, ONE)], StoredData(Int, THREE));
      assert [StoredData(Int, ONE)] + [StoredData(Int, THREE)] == addArgs;
    }
    assert I32ToBigEndian(4) == FOUR;
    assert AddFunction(addArgs) == Returned(StoredData(Int, FOUR));
  }

  /** The print call, with the printer as written registered, is handed Int 4 and leaves memory as it is. */
  lemma PrintCallCompletes(definitions: Definitions)
    requires PRINT in definitions && definitions[PRINT] == Native(PrintFunctionAsWritten)
    ensures var after := map[RESULT_1 := StoredData(Int, FOUR)];
      && ResolveArgs(PrintCall.args, after) == Ok([StoredData(Int, FOUR)])
      && Step(PrintCall, after, definitions) == Next(after)
  {
    var after := map[RESULT_1 := StoredData(Int, FOUR)];
    assert ResolveArgs(PrintCall.args, after) == Ok([StoredData(Int, FOUR)]) by {
      assert [] + [MemoryAccess(RESULT_1)] == PrintCall.args;
      assert [] + [StoredData(Int, FOUR)] == [StoredData(Int, FOUR)];
      ResolveArgsSnoc([], MemoryAccess(RESULT_1), after, [], StoredData(Int, FOUR));
    }
    assert PrintFromAsWritten([StoredData(Int, FOUR)], 1) == Returned(NULL);
    assert RendersAsWritten([StoredData(Int, FOUR)], 0);
  }

  /**
   * With the adder registered under "add" and the printer as written under "print", the
   * two calls complete; the printer is handed the single Int 4, and "result_1" holds it
   * afterwards.
   */
  lemma ScriptRuns(definitions: Definitions)
    requires ADD in definitions && definitions[ADD] == Native(AddFunction)
    requires PRINT in definitions && definitions[PRINT] == Native(PrintFunctionAsWritten)
    ensures var after := map[RESULT_1 := StoredData(Int, FOUR)];
      && ResolveArgs(PrintCall.args, after) == Ok([StoredData(Int, FOUR)])
      && I32FromBigEndian(FOUR) == 4
      && Run([AddCall, PrintCall], map[], definitions) == Final(Completed, after)
  {
    var after := map[RESULT_1 := StoredData(Int, FOUR)];
    AddCallStores(definitions);
    PrintCallCompletes(definitions);
    assert [AddCall, PrintCall][1..] == [PrintCall] && [PrintCall][1..] == [];
    assert Run([PrintCall], after, definitions) == Final(Completed, after);
  }

  /**
   * The example's main: build the engine from the script, register the two natives,
   * execute. The pass completes and "result_1" holds the Int 4.
   */
  method RunExample() returns (outcome: Outcome, result: Option<StoredData>)
    ensures outcome == Completed
    ensures result == Some(StoredData(Int, FOUR))
  {
    var runtime := new Runtime(Script);
    runtime.AddNativeFunction(ADD, AddFunction);
    runtime.AddNativeFunction(PRINT, PrintFunctionAsWritten);
    ScriptDecodes();
    ScriptRuns(runtime.definitions);
    outcome := runtime.Execute();
    result := if RESULT_1 in runtime.memory then Some(runtime.memory[RESULT_1]) else None;
  }
}
