# virtuous: a bytecode virtual machine, modelled in Dafny

virtuous is a small virtual machine. A script is a flat byte string holding a sequence of
actions:

- store a value in a named memory location;
- free a location;
- declare a function (not yet implemented by the engine);
- call a function by name, on literal or memory operands.

The engine first decodes the whole script. Decoding is greedy and stops at the first
undecodable byte. The engine then runs the actions in order against two maps:

- memory: location name to typed value;
- definitions: function name to a host-supplied ("native") callback.

It stops at the first error. An example program registers two natives, an i32 adder and
a printer, and runs a two-call script.

The model has six modules:

- `Wrappers` (wrappers.dfy): `Option` and `Result`, with the failure-propagation
  members that `:-` needs.
- `Instructions` (instructions.dfy): the byte constants, the data model (`DataType`,
  `Literal`, `StoredData` and `NULL`, `AccessData`, `FunctionArgument`, `Action`), and
  the tag/byte mapping.
- `Encoding` (encoding.dfy): a pure encoder for every wire form, and the
  well-formedness predicates saying which values the decoder can produce.
  - The encoder is the partner of the decoder: every decoder's contract says that its
    input is the encoding of its value followed by the residual.
  - The round-trip lemmas prove the converse.
- `Parser` (parser.dfy): the decoder. Each nom parser becomes a function returning
  `Option<Parsed<T>>`:
  - `alt` is an ordered choice;
  - `count` is recursion on the count byte;
  - `many0` is recursion on the input length.
- `Runtime` (runtime.dfy):
  - the meaning of one action (`Step`) and of a pass (`Run`) as functions of the memory
    map;
  - the class `Runtime`, which holds `actions`, `memory` and `definitions`. Its
    `Execute` loop is proved to end in exactly the state and outcome `Run` gives.
- `Addition` (addition.dfy):
  - the adder and the printer natives;
  - the script assembled by the example's `main`, proved to decode to its two calls;
  - an end-to-end method that builds the engine, registers both natives, executes the
    script, and ends with `result_1` holding Int 4.

Outcomes are explicit:

- A host callback returns `Returned(value)`, `Raised(error)` or `Panicked`.
- A pass ends `Completed`, `Failed(error)` or `Halted(cause)`.
  - `Halted` stands for the engine's unimplemented paths, which panic.
  - A callback that panics also halts the pass.

## Model

| member | source | states |
|---|---|---|
| Instructions.TypeTag | src/instructions.rs:20-43 | every data type's tag lies in the consecutive range 10..19 |
| Instructions.TypeOfTag | src/parser.rs:16-30 | a byte names a type exactly when it lies in 10..19, and then it is that type's tag |
| Instructions.TypeTagRoundTrip | src/instructions.rs:20-43 | decoding a type's tag gives the type back |
| Instructions.TypeTagInjective | src/instructions.rs:20-43 | two types share a tag exactly when they are equal: one tag per variant, pairwise distinct |
| Instructions.Opcode | src/instructions.rs:81-95 | every action is introduced by one of the four opcodes 30, 31, 40, 41 |
| Instructions.TagSpacesDisjoint | src/instructions.rs:46-47 | access tags differ from each other and from every type tag; opcodes are four distinct bytes and differ from every type and access tag, so `parse_action`'s choice is deterministic |
| Encoding.EncodeAction | src/instructions.rs:81-95 | every encoded action is non-empty and starts with its opcode |
| Parser.ParseType | src/parser.rs:16-30 | succeeds exactly on a first byte in 10..19, and then consumes exactly that one tag byte |
| Parser.ParseInt | src/parser.rs:32-34 | succeeds exactly when 4 bytes remain, and takes those 4 bytes verbatim |
| Parser.TakeWhileNonNul | src/parser.rs:37 | the longest NUL-free prefix: a NUL-free prefix followed by NUL or the end of input |
| Parser.ParseString | src/parser.rs:36-41 | succeeds exactly when a NUL is present, and returns a NUL-free value whose encoding plus one NUL is what was consumed |
| Parser.ParseLiteral | src/parser.rs:44-58 | succeeds only on tag 13 or 15, with a well-formed Int (4 bytes) or String (NUL-free) literal whose encoding was consumed |
| Parser.ParseAccessLiteral | src/parser.rs:60-66 | consumes tag 20 followed by a well-formed literal |
| Parser.ParseAccessMemory | src/parser.rs:68-74 | consumes tag 21 followed by a NUL-terminated location |
| Parser.ParseAccessData | src/parser.rs:76-82 | first byte 20 exactly when the operand is a literal, 21 exactly when it is a memory reference; the operand's encoding was consumed |
| Parser.ParseAccessList | src/parser.rs:133 | the `count` combinator: exactly n well-formed operands whose encodings were consumed in order |
| Parser.ParseStoreMemory | src/parser.rs:85-91 | yields a well-formed store whose encoding was consumed |
| Parser.ParseFreeMemory | src/parser.rs:93-98 | yields a well-formed free whose encoding was consumed |
| Parser.ParseFunctionArgument | src/parser.rs:101-106 | consumes a type tag and a NUL-terminated location |
| Parser.ParseArgumentList | src/parser.rs:112 | exactly n well-formed parameters whose encodings were consumed in order |
| Parser.ParseDeclareFunction | src/parser.rs:108-127 | a declaration whose parameter count equals its count byte and whose statement list is empty; nothing is consumed past the return-type tag |
| Parser.ParseCallFunction | src/parser.rs:129-145 | a call whose argument count equals its count byte; the result location may be empty |
| Parser.ParseAction | src/parser.rs:148-156 | the first byte is the decoded action's opcode, at least one byte is consumed, and the action's encoding is what was consumed |
| Parser.ParseScript | src/parser.rs:158-160 | never fails; decodes well-formed actions whose concatenated encodings are exactly the consumed prefix, and stops where no action decodes |
| Parser.ParseScriptOfEmpty | src/parser.rs:158-160 | empty input decodes to no actions and an empty residual |
| Parser.TakeWhileOfFramed | src/parser.rs:37 | on a NUL-free string followed by NUL, the scan stops exactly at that NUL |
| Parser.ParseStringRoundTrip | src/parser.rs:36-41 | a NUL-free string plus NUL plus anything decodes to the string, leaving exactly what followed |
| Parser.ParseTypeRoundTrip | src/parser.rs:16-30 | every type's tag decodes to that type |
| Parser.ParseLiteralRoundTrip | src/parser.rs:44-58 | every well-formed literal's encoding decodes to it |
| Parser.ParseAccessDataRoundTrip | src/parser.rs:76-82 | every well-formed operand's encoding decodes to it |
| Parser.ParseAccessListRoundTrip | src/parser.rs:133 | a list of n well-formed operands, counted with n, decodes to itself |
| Parser.ParseFunctionArgumentRoundTrip | src/parser.rs:101-106 | every well-formed parameter's encoding decodes to it |
| Parser.ParseArgumentListRoundTrip | src/parser.rs:112 | a list of n well-formed parameters, counted with n, decodes to itself |
| Parser.ParseStoreMemoryRoundTrip | src/parser.rs:85-91 | every well-formed store's encoding decodes to it, leaving exactly what followed |
| Parser.ParseFreeMemoryRoundTrip | src/parser.rs:93-98 | every well-formed free's encoding decodes to it |
| Parser.ParseDeclareFunctionRoundTrip | src/parser.rs:108-127 | every well-formed declaration (count byte equal to its parameter count, no statements) decodes to itself |
| Parser.ParseCallFunctionRoundTrip | src/parser.rs:129-145 | every well-formed call (count byte equal to its operand count) decodes to itself, including one with an empty result location |
| Parser.ParseActionRoundTrip | src/parser.rs:148-156 | every well-formed action's encoding decodes to it, leaving exactly what followed |
| Parser.ParseScriptCons | src/parser.rs:158-160 | one step of `many0`: a decoded action followed by the decoding of what it left is the decoding of the whole |
| Parser.ParseScriptRoundTrip | src/parser.rs:158-160 | well-formed actions followed by an undecodable residual decode to those actions and that residual |
| Parser.ParseScriptOfEncoding | src/parser.rs:158-160 | encoding a list of well-formed actions and decoding it gives the list back with an empty residual |
| Runtime.Resolve | src/runtime.rs:49-65 | an operand fails exactly when it references an absent location, with InvalidLocation naming it; a literal yields its type and data, a reference yields a copy of the cell |
| Runtime.ResolveArgs | src/runtime.rs:80-95 | succeeds exactly when every memory reference is present, giving one value per operand in order; otherwise fails with InvalidLocation naming the first absent reference |
| Runtime.ResolveArgsSnoc | src/runtime.rs:80-95 | resolving one more operand appends its value |
| Runtime.ResolveArgsFailureExtends | src/runtime.rs:87-90 | once a prefix of the operands fails, the whole list fails with the same error (early return) |
| Runtime.Step | src/runtime.rs:47-105 | one action: when it carries on, memory changes at the action's own target only; a successful store leaves its target present, a successful free leaves it absent; a declaration never carries on |
| Runtime.Run | src/runtime.rs:46-107 | a pass changes memory only at locations some action targets; an empty program completes |
| Runtime.RunPrefixAfterStep | src/runtime.rs:46-107 | after a first action that carries on, running a prefix of the whole program is running the matching prefix of the rest from the memory that action left |
| Runtime.Runtime.constructor | src/runtime.rs:25-33 | the actions are the decoded actions of the script (the residual is dropped); memory and definitions start empty |
| Runtime.Runtime.AddNativeFunction | src/runtime.rs:35-43 | definitions gain the callback at the location, replacing any earlier one; only definitions change |
| Runtime.Runtime.Execute | src/runtime.rs:45-110 | the outcome and final memory are exactly those of `Run` over the actions from the old memory; definitions and actions are unchanged |
| Runtime.Runtime.ResolveCallArgs | src/runtime.rs:80-95 | the loop that builds a call's argument list computes exactly `ResolveArgs` over the current memory: the values in order, or the error of the first absent reference |
| Runtime.RunAppend | src/runtime.rs:45-110 | running two programs back to back is running the first and, only if it completed, the second from the memory it left: in order, fail-fast, no rollback |
| Runtime.RunStopsAtFirstStop | src/runtime.rs:45-110 | a pass that does not complete stopped at some action k; the actions before k completed and produced the final memory, and action k stopped without changing it |
| Runtime.StoreLiteralEffect | src/runtime.rs:49-57 | a literal store sets its target to the literal's type and data, and leaves every other location alone |
| Runtime.StoreCopyEffect | src/runtime.rs:58-65 | a copy from a present source copies its value; an absent source fails with InvalidLocation(source) |
| Runtime.CopyIsIndependent | src/runtime.rs:49-65 | after storing at a, copying a to b and overwriting a, b still holds the first value |
| Runtime.FreeTwiceFails | src/runtime.rs:67-73 | freeing a present location removes it; freeing it again fails with InvalidLocation and keeps the memory the first free left |
| Runtime.DeclareHalts | src/runtime.rs:74 | reaching a declaration halts the pass with memory unchanged |
| Runtime.CallUnknownTarget | src/runtime.rs:76-78 | calling an unregistered name fails with InvalidLocation(name), before any operand is looked at |
| Runtime.CallMissingArgument | src/runtime.rs:80-95 | a call with an absent reference fails with InvalidLocation naming the first absent reference |
| Runtime.CallNative | src/runtime.rs:97-104 | the callee receives one value per operand, in order; its error ends the pass unchanged; its result is stored exactly when the result location is non-empty |
| Runtime.DiscardedResult | src/runtime.rs:102-104 | a call with an empty result location leaves memory exactly unchanged |
| Addition.I32FromBigEndian | examples/addition.rs:63-74 | decodes four big-endian two's-complement bytes to a value in the i32 range |
| Addition.I32ToBigEndian | examples/addition.rs:78 | four bytes that decode back to the value (inverse of I32FromBigEndian) |
| Addition.AddFunction | examples/addition.rs:42-80 | wrong arity gives InvalidArgumentCount(2, len mod 256) before any type check; a non-Int first, then second, argument gives InvalidArgument(Int, actual); it returns exactly when both payloads have at least 4 bytes (only the first four are read) and the sum fits in i32, and then the result is an Int whose 4 bytes decode to the sum |
| Addition.PrintFromAsWritten | examples/addition.rs:86-138 | the printer as written from argument i on: returns NULL exactly when each remaining argument renders (Int/Float judged by the first argument's payload); an error comes from the first failing argument, which is Void, Func or Struct, as InvalidArgument(String, its type); a panic comes from the first failing argument, which is of another type |
| Addition.PrintFunctionAsWritten | examples/addition.rs:86-138 | as written: returns NULL exactly when every argument renders; otherwise the first argument that does not render decides: Void, Func or Struct raise InvalidArgument(String, its type), any other type panics |
| Addition.PrintAsWrittenReadsFirstArgument | examples/addition.rs:103-116 | a String followed by a well-formed Int makes the printer as written panic, while the corrected printer returns NULL |
| Addition.PrintFrom | examples/addition.rs:86-138 | corrected printer from argument i on: NULL exactly when each remaining argument renders from its own payload; an error names the first failing Void, Func or Struct argument; a panic comes from the first argument that does not render |
| Addition.PrintFunction | examples/addition.rs:86-138 | corrected printer: returns NULL exactly when every argument renders from its own payload; otherwise the first argument that does not render decides: Void, Func or Struct raise InvalidArgument(String, its type), any other type panics |
| Addition.EncodeAddCall | examples/addition.rs:11-20 | the first call's bytes as assembled in `main` are the encoding of the "add" call |
| Addition.EncodePrintCall | examples/addition.rs:22-27 | the second call's bytes are the encoding of the "print" call |
| Addition.ScriptDecodes | examples/addition.rs:11-29 | the script decodes to exactly the "add" and "print" calls with an empty residual |
| Addition.AddCallStores | examples/addition.rs:11-20 | with the adder registered, the add call on Int 1 and Int 3 stores Int [0,0,0,4] at "result_1" in an empty memory |
| Addition.PrintCallCompletes | examples/addition.rs:22-27 | with the printer as written registered, the print call is handed exactly Int [0,0,0,4] and leaves memory unchanged |
| Addition.ScriptRuns | examples/addition.rs:29-34 | with the adder and the printer as written registered, as `main` does, the pass completes with memory {"result_1": Int 4}, and the printer is handed that value |
| Addition.RunExample | examples/addition.rs:8-37 | building the engine, registering the adder and the printer as written, and executing completes, with "result_1" holding Int [0,0,0,4] |

## Left out

- src/script_builder.rs is not part of this model. It only appends bytes and writes a file. The pure encoder in `Encoding` stands in for it.
- src/functions.rs and src/lib.rs are not part of this model. The first holds only the callback trait and the `DefinedFunction` enum; the second holds only re-exports.
- The `NativeFunction` trait object becomes a Dafny function value `seq<StoredData> -> NativeResult`. `Panicked` stands for a panic inside the callback.
- The wrapper structs (`AccessLiteral`, `AccessMemory`, `StoreMemory`, `FreeMemory`, `DeclareFunction`, `CallFunction`) are folded into the `AccessData` and `Action` variants that carry their fields.
- `HashMap` and the nom combinators are modelled by their meaning, as Dafny maps and `Option`-returning functions. nom's error values are collapsed to `None`, because no caller inspects them.
- `ParseError` in src/parser.rs is declared but never used, so it is not modelled.
- Runtime.Runtime.constructor: the source returns `Result<Self, ()>` but always returns `Ok`, because `parse_script` never fails and its residual is ignored. The model's constructor always succeeds. A reading in which construction rejects a script with undecoded bytes is not what the code does; the code is followed.
- The byte-layout comment for `STORE_MEMORY` mentions a type tag between the location and the operand. `parse_store_memory` reads no such byte, and the model follows the parser.
- Declaring functions and running bytecode-defined functions are `todo!` panics in the engine. They are modelled as the outcomes `Halted(DeclareFunctionUnimplemented)` and `Halted(BytecodeUnimplemented)`, not as behaviour.
- Addition.AddFunction: an i32 overflow of the sum is modelled as a panic, which is the debug-build behaviour. The release-build wrap-around is not modelled, so the contract promises a result only for sums within the i32 range.
- Addition.PrintFunction: only the outcome is modelled: the error, the panic conditions and the `NULL` result. The rendered text and `println!` output are left out, as is the `f32` formatting of Float payloads. The `todo!` for UID and Table becomes `Panicked`.
- `RuntimeError::Generic` is declared but never produced by the engine or the example natives. It is kept in the datatype only.

## Findings

| source | as written | input that shows it | evidently intended | confidence | as-written member | corrected member |
|---|---|---|---|---|---|---|
| examples/addition.rs:103-116 | the Int and Float branches of the printer's loop read the four payload bytes of `args[0]` instead of the current `arg` | arguments `[String "", Int [0,0,0,4]]`: the second argument is judged by the empty first payload, so indexing panics (and with a wide first argument, the wrong number would be printed) | each argument is rendered from its own payload | high (not executed) | Addition.PrintAsWrittenReadsFirstArgument | Addition.PrintFunction |
