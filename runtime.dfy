/**
 * The execution engine. `Step` and `Run` give the meaning of a program as functions
 * of the memory map; the class `Runtime` holds the decoded actions and the two maps
 * and its `Execute` loop is proved to compute exactly `Run`.
 */
module Runtime {

  import opened Wrappers
  import opened Instructions
  import Parser

  /** Errors an execution pass can end with. */
  datatype RuntimeError =
    | Generic(message: string)
    | InvalidLocation(location: MemoryLocation)
    | InvalidArgument(expectedType: DataType, actualType: DataType)
    | InvalidArgumentCount(expectedCount: byte, actualCount: byte)

  /**
   * What a host-supplied function does when invoked: return a value, return an error,
   * or panic (an out-of-range index, an unimplemented branch, an arithmetic overflow).
   */
  datatype NativeResult =
    | Returned(value: StoredData)
    | Raised(error: RuntimeError)
    | Panicked

  /** A host-supplied function: it sees only the resolved argument values, never the engine. */
  type NativeFunction = seq<StoredData> -> NativeResult

  /** A callable registered under a name; bytecode-defined bodies are reserved and not implemented. */
  datatype DefinedFunction = Bytecode | Native(callback: NativeFunction)

  /** The unimplemented paths whose execution panics. */
  datatype Halt = DeclareFunctionUnimplemented | BytecodeUnimplemented | NativePanic

  /** How an execution pass ends. */
  datatype Outcome = Completed | Failed(error: RuntimeError) | Halted(cause: Halt)

  type Memory = map<MemoryLocation, StoredData>
  type Definitions = map<MemoryLocation, DefinedFunction>

  /** The effect of one action: carry on with a new memory, or stop the pass with memory as it was. */
  datatype StepResult = Next(memory: Memory) | Stop(outcome: Outcome)

  /** The memory and outcome at the end of a pass. */
  datatype Final = Final(outcome: Outcome, memory: Memory)

  /** An operand's value: a literal as it stands, a reference as a copy of that cell. */
  function Resolve(a: AccessData, memory: Memory): (r: Result<StoredData, RuntimeError>)
    ensures r.Err? <==> a.MemoryAccess? && a.source !in memory
    ensures r.Err? ==> r.error == InvalidLocation(a.source)
    ensures r.Ok? && a.LiteralAccess? ==> r.value.ty == a.literal.ty && r.value.data == a.literal.data
    ensures r.Ok? && a.MemoryAccess? ==> r.value == memory[a.source]
  {
    match a
    case LiteralAccess(lit) => Ok(StoredData(lit.ty, lit.data))
    case MemoryAccess(source) =>
      if source in memory then Ok(memory[source]) else Err(InvalidLocation(source))
  }

  /** Every reference in `args[..k]` is present. */
  ghost predicate Resolvable(args: seq<AccessData>, k: int, memory: Memory)
    requires 0 <= k <= |args|
  {
    forall i :: 0 <= i < k ==> Resolve(args[i], memory).Ok?
  }

  /**
   * The call arguments, resolved in declaration order: the values in the same order,
   * or the error of the first reference whose location is absent.
   */
  function ResolveArgs(args: seq<AccessData>, memory: Memory): (r: Result<seq<StoredData>, RuntimeError>)
    ensures r.Ok? <==> Resolvable(args, |args|, memory)
    ensures r.Ok? ==> |r.value| == |args|
    ensures r.Ok? ==> forall i :: 0 <= i < |args| ==> Resolve(args[i], memory) == Ok(r.value[i])
    ensures r.Err? ==> exists k :: 0 <= k < |args| && Resolvable(args, k, memory)
                                   && args[k].MemoryAccess? && args[k].source !in memory
                                   && r.error == InvalidLocation(args[k].source)
  {
    if args == [] then Ok([])
    else
      assert forall i :: 0 <= i < |args| - 1 ==> args[..|args| - 1][i] == args[i];
      var init :- ResolveArgs(args[..|args| - 1], memory);
      var last :- Resolve(args[|args| - 1], memory);
      Ok(init + [last])
  }

  /** The one location an action may write or remove: a store's or free's location, a call's result location. */
  function Target(action: Action): MemoryLocation
  {
    match action
    case StoreMemory(location, _) => location
    case FreeMemory(location) => location
    case DeclareFunction(location, _, _, _, _) => location
    case CallFunction(_, _, _, resultLocation) => resultLocation
  }

  /** `after` differs from `before` only at locations that some action of `actions` targets. */
  ghost predicate Framed(actions: seq<Action>, before: Memory, after: Memory)
  {
    AgreeOutside(before, after, Targets(actions))
  }

  /** Every location some action of `actions` may write or remove. */
  function Targets(actions: seq<Action>): set<MemoryLocation>
  {
    set i | 0 <= i < |actions| :: Target(actions[i])
  }

  /** `before` and `after` agree on every location outside `touched`: present in both or absent from both, with equal values. */
  ghost predicate AgreeOutside(before: Memory, after: Memory, touched: set<MemoryLocation>)
  {
    forall l :: l !in touched ==> (l in before <==> l in after) && (l in before ==> before[l] == after[l])
  }

  /**
   * The effect of one action on memory, given the registered definitions. An action
   * that carries on changes memory at its target only; a store leaves its target present,
   * a free leaves it absent, and a declaration never carries on.
   */
  function Step(action: Action, memory: Memory, definitions: Definitions): (r: StepResult)
    ensures r.Next? ==> AgreeOutside(memory, r.memory, {Target(action)})
    ensures r.Next? && action.StoreMemory? ==> action.location in r.memory
    ensures r.Next? && action.FreeMemory? ==> action.location !in r.memory
    ensures action.DeclareFunction? ==> r.Stop?
  {
    match action
    case StoreMemory(location, data) =>
      (match Resolve(data, memory)
       case Ok(value) => Next(memory[location := value])
       case Err(e) => Stop(Failed(e)))
    case FreeMemory(location) =>
      if location in memory then Next(memory - {location}) else Stop(Failed(InvalidLocation(location)))
    case DeclareFunction(_, _, _, _, _) =>
      Stop(Halted(DeclareFunctionUnimplemented))
    case CallFunction(location, _, args, resultLocation) =>
      if location !in definitions then Stop(Failed(InvalidLocation(location)))
      else
        match ResolveArgs(args, memory)
        case Err(e) => Stop(Failed(e))
        case Ok(values) =>
          match definitions[location]
          case Bytecode => Stop(Halted(BytecodeUnimplemented))
          case Native(callback) =>
            match callback(values)
            case Raised(e) => Stop(Failed(e))
            case Panicked => Stop(Halted(NativePanic))
            case Returned(result) =>
              Next(if |resultLocation| > 0 then memory[resultLocation := result] else memory)
  }

  /** A pass over the actions in order, stopping at the first action that stops. */
  function Run(actions: seq<Action>, memory: Memory, definitions: Definitions): (r: Final)
    ensures Framed(actions, memory, r.memory)
    ensures actions == [] ==> r.outcome.Completed?
  {
    if actions == [] then Final(Completed, memory)
    else
      match Step(actions[0], memory, definitions)
      case Stop(outcome) => Final(outcome, memory)
      case Next(memory') =>
        var r := Run(actions[1..], memory', definitions);
        assert Targets(actions) == {Target(actions[0])} + Targets(actions[1..]) by {
          forall l | l in Targets(actions[1..]) ensures l in Targets(actions) {
            var i :| 0 <= i < |actions[1..]| && Target(actions[1..][i]) == l;
            assert Target(actions[i + 1]) == l;
          }
        }
        r
  }

  class Runtime {
    const actions: seq<Action>
    var memory: Memory
    var definitions: Definitions

    /**
     * Decodes the script once. The decoder never fails and its residual is dropped,
     * so construction always succeeds, with empty memory and no definitions.
     */
    constructor (script: Bytes)
      ensures actions == Parser.ParseScript(script).value.value
      ensures memory == map[] && definitions == map[]
    {
      actions := Parser.ParseScript(script).value.value;
      memory := map[];
      definitions := map[];
    }

    /** Registers a host function under `location`; a later registration replaces an earlier one. */
    method AddNativeFunction(location: MemoryLocation, callback: NativeFunction)
      modifies this`definitions
      ensures definitions == old(definitions)[location := Native(callback)]
    {
      definitions := definitions[location := Native(callback)];
    }

    /**
     * Runs the actions in order and reports the first failure. Memory ends as `Run`
     * says: effects of the actions before a failing one persist. Definitions and
     * actions are not changed.
     */
    method Execute() returns (outcome: Outcome)
      modifies this`memory
      ensures Run(actions, old(memory), definitions) == Final(outcome, memory)
    {
      var i := 0;
      while i < |actions|
        invariant 0 <= i <= |actions|
        invariant Run(actions[i..], memory, definitions) == Run(actions, old(memory), definitions)
      {
        assert actions[i..][1..] == actions[i + 1..];
        match actions[i] {
          case StoreMemory(location, data) =>
            match data {
              case LiteralAccess(lit) =>
                memory := memory[location := StoredData(lit.ty, lit.data)];
              case MemoryAccess(source) =>
                if source in memory {
                  memory := memory[location := memory[source]];
                } else {
                  return Failed(InvalidLocation(source));
                }
            }
          case FreeMemory(location) =>
            if location in memory {
              memory := memory - {location};
            } else {
              return Failed(InvalidLocation(location));
            }
          case DeclareFunction(_, _, _, _, _) =>
            return Halted(DeclareFunctionUnimplemented);
          case CallFunction(location, _, callArgs, resultLocation) =>
            if location !in definitions {
              return Failed(InvalidLocation(location));
            }
            var resolved := ResolveCallArgs(callArgs);
            if resolved.Err? {
              return Failed(resolved.error);
            }
            var args := resolved.value;
            match definitions[location] {
              case Bytecode =>
                return Halted(BytecodeUnimplemented);
              case Native(callback) =>
                match callback(args) {
                  case Raised(e) =>
                    return Failed(e);
                  case Panicked =>
                    return Halted(NativePanic);
                  case Returned(result) =>
                    if |resultLocation| > 0 {
                      memory := memory[resultLocation := result];
                    }
                }
            }
        }
        i := i + 1;
      }
      outcome := Completed;
    }

    /**
     * The arguments of a call, resolved against the current memory one by one in
     * declaration order, stopping at the first absent reference.
     */
    method ResolveCallArgs(callArgs: seq<AccessData>) returns (resolved: Result<seq<StoredData>, RuntimeError>)
      ensures resolved == ResolveArgs(callArgs, memory)
    {
      var args: seq<StoredData> := [];
      var j := 0;
      while j < |callArgs|
        invariant 0 <= j <= |callArgs|
        invariant ResolveArgs(callArgs[..j], memory) == Ok(args)
      {
        assert callArgs[..j + 1][..j] == callArgs[..j];
        match callArgs[j] {
          case LiteralAccess(lit) =>
            args := args + [StoredData(lit.ty, lit.data)];
          case MemoryAccess(source) =>
            if source !in memory {
              ResolveArgsFailureExtends(callArgs, j + 1, memory);
              return Err(InvalidLocation(source));
            }
            args := args + [memory[source]];
        }
        j := j + 1;
      }
      assert callArgs[..j] == callArgs;
      return Ok(args);
    }
  }

  /** Resolving one more argument appends its value. */
  lemma ResolveArgsSnoc(args: seq<AccessData>, a: AccessData, memory: Memory, values: seq<StoredData>, value: StoredData)
    requires ResolveArgs(args, memory) == Ok(values) && Resolve(a, memory) == Ok(value)
    ensures ResolveArgs(args + [a], memory) == Ok(values + [value])
  {
    assert (args + [a])[..|args|] == args;
  }

  /** Once a prefix of the arguments fails to resolve, the whole list fails with the same error. */
  lemma {:induction false} ResolveArgsFailureExtends(args: seq<AccessData>, k: nat, memory: Memory)
    requires k <= |args| && ResolveArgs(args[..k], memory).Err?
    ensures ResolveArgs(args, memory) == ResolveArgs(args[..k], memory)
    decreases |args| - k
  {
    if k < |args| {
      assert args[..k + 1][..k] == args[..k];
      ResolveArgsFailureExtends(args, k + 1, memory);
    } else {
      assert args[..k] == args;
    }
  }

  // Properties of a pass

  /**
   * Running two programs back to back is running the first and, only if it completed,
   * the second from the memory the first left: strictly in order, fail-fast, and with
   * no rollback of what the first part did.
   */
  lemma {:induction false} RunAppend(xs: seq<Action>, ys: seq<Action>, memory: Memory, definitions: Definitions)
    ensures Run(xs + ys, memory, definitions)
         == (var first := Run(xs, memory, definitions);
             if first.outcome.Completed? then Run(ys, first.memory, definitions) else first)
  {
    if xs == [] {
      assert xs + ys == ys;
    } else {
      assert (xs + ys)[0] == xs[0] && (xs + ys)[1..] == xs[1..] + ys;
      match Step(xs[0], memory, definitions)
      case Stop(_) =>
      case Next(memory') => RunAppend(xs[1..], ys, memory', definitions);
    }
  }

  /**
   * A pass that does not complete stopped at some action k: the actions before k all
   * ran to completion and produced the final memory, and action k itself stopped
   * without touching it.
   */
  lemma {:induction false} RunStopsAtFirstStop(actions: seq<Action>, memory: Memory, definitions: Definitions)
    requires !Run(actions, memory, definitions).outcome.Completed?
    ensures exists k :: (0 <= k < |actions|
      && Run(actions[..k], memory, definitions) == Final(Completed, Run(actions, memory, definitions).memory)
      && Step(actions[k], Run(actions, memory, definitions).memory, definitions)
         == Stop(Run(actions, memory, definitions).outcome))
  {
    var final := Run(actions, memory, definitions);
    assert actions[..0] == [];
    match Step(actions[0], memory, definitions)
    case Stop(_) =>
      assert Run(actions[..0], memory, definitions) == Final(Completed, final.memory);
    case Next(memory') =>
      RunStopsAtFirstStop(actions[1..], memory', definitions);
      var k :| 0 <= k < |actions[1..]|
        && Run(actions[1..][..k], memory', definitions) == Final(Completed, final.memory)
        && Step(actions[1..][k], final.memory, definitions) == Stop(final.outcome);
      RunPrefixAfterStep(actions, k, memory, memory', definitions);
      assert actions[1..][k] == actions[k + 1];
      assert Step(actions[k + 1], final.memory, definitions) == Stop(final.outcome);
  }

  /** A completed prefix of the actions after a first step that carries on extends to a completed prefix of the whole. */
  lemma RunPrefixAfterStep(actions: seq<Action>, k: nat, memory: Memory, memory': Memory, definitions: Definitions)
    requires k < |actions| && Step(actions[0], memory, definitions) == Next(memory')
    ensures Run(actions[..k + 1], memory, definitions) == Run(actions[1..][..k], memory', definitions)
  {
    assert actions[..k + 1] == [actions[0]] + actions[1..][..k];
    RunAppend([actions[0]], actions[1..][..k], memory, definitions);
    assert Run([actions[0]], memory, definitions) == Final(Completed, memory') by {
      assert [actions[0]][1..] == [];
    }
  }

  /** A literal store sets its target to the literal's value and leaves every other location alone. */
  lemma StoreLiteralEffect(location: MemoryLocation, lit: Literal, memory: Memory, definitions: Definitions)
    ensures Step(StoreMemory(location, LiteralAccess(lit)), memory, definitions).Next?
    ensures var after := Step(StoreMemory(location, LiteralAccess(lit)), memory, definitions).memory;
      && after.Keys == memory.Keys + {location}
      && after[location] == StoredData(lit.ty, lit.data)
      && forall l :: l in memory && l != location ==> after[l] == memory[l]
  {
  }

  /**
   * A store from memory copies the source's value when the source is present, and
   * otherwise stops with InvalidLocation naming the source.
   */
  lemma StoreCopyEffect(location: MemoryLocation, source: MemoryLocation, memory: Memory, definitions: Definitions)
    ensures source in memory ==>
      Step(StoreMemory(location, MemoryAccess(source)), memory, definitions) == Next(memory[location := memory[source]])
    ensures source !in memory ==>
      Step(StoreMemory(location, MemoryAccess(source)), memory, definitions) == Stop(Failed(InvalidLocation(source)))
  {
  }

  /**
   * Store-then-copy: after storing a literal at `a` and copying `a` to `b`, overwriting
   * `a` leaves `b` holding the first value; the copy is independent of its source.
   */
  lemma CopyIsIndependent(a: MemoryLocation, b: MemoryLocation, first: Literal, second: Literal,
                          memory: Memory, definitions: Definitions)
    requires a != b
    ensures var final := Run([StoreMemory(a, LiteralAccess(first)), StoreMemory(b, MemoryAccess(a)),
                              StoreMemory(a, LiteralAccess(second))], memory, definitions);
      && final.outcome == Completed
      && a in final.memory && final.memory[a] == StoredData(second.ty, second.data)
      && b in final.memory && final.memory[b] == StoredData(first.ty, first.data)
  {
    var program := [StoreMemory(a, LiteralAccess(first)), StoreMemory(b, MemoryAccess(a)),
                    StoreMemory(a, LiteralAccess(second))];
    var m1 := memory[a := StoredData(first.ty, first.data)];
    var m2 := m1[b := m1[a]];
    var m3 := m2[a := StoredData(second.ty, second.data)];
    assert program[1..][1..][1..] == [];
    assert Run(program[1..][1..], m2, definitions) == Final(Completed, m3);
    assert Run(program[1..], m1, definitions) == Final(Completed, m3);
  }

  /** Freeing a present location removes it; freeing it again stops with InvalidLocation. */
  lemma FreeTwiceFails(location: MemoryLocation, memory: Memory, definitions: Definitions)
    requires location in memory
    ensures Run([FreeMemory(location)], memory, definitions) == Final(Completed, memory - {location})
    ensures Run([FreeMemory(location), FreeMemory(location)], memory, definitions)
         == Final(Failed(InvalidLocation(location)), memory - {location})
  {
  }

  /** Reaching a declaration halts the pass: declaring functions is not implemented. */
  lemma DeclareHalts(action: Action, memory: Memory, definitions: Definitions)
    requires action.DeclareFunction?
    ensures Run([action], memory, definitions) == Final(Halted(DeclareFunctionUnimplemented), memory)
  {
  }

  /** Calling an unregistered name stops with InvalidLocation naming it, before any argument is looked at. */
  lemma CallUnknownTarget(call: Action, memory: Memory, definitions: Definitions)
    requires call.CallFunction? && call.location !in definitions
    ensures Step(call, memory, definitions) == Stop(Failed(InvalidLocation(call.location)))
  {
  }

  /**
   * A call whose arguments do not all resolve stops with InvalidLocation naming the
   * first absent reference, and the callee is not invoked.
   */
  lemma CallMissingArgument(call: Action, memory: Memory, definitions: Definitions)
    requires call.CallFunction? && call.location in definitions
    requires !Resolvable(call.args, |call.args|, memory)
    ensures exists k :: (0 <= k < |call.args| && Resolvable(call.args, k, memory)
      && call.args[k].MemoryAccess? && call.args[k].source !in memory
      && Step(call, memory, definitions) == Stop(Failed(InvalidLocation(call.args[k].source))))
  {
    assert Step(call, memory, definitions) == Stop(Failed(ResolveArgs(call.args, memory).error));
  }

  /**
   * A native callee receives the resolved arguments, one per operand and in order; its
   * error ends the pass unchanged, and on success its value is stored at the result
   * location exactly when that location is non-empty.
   */
  lemma CallNative(call: Action, memory: Memory, definitions: Definitions)
    requires call.CallFunction? && call.location in definitions && definitions[call.location].Native?
    requires Resolvable(call.args, |call.args|, memory)
    ensures var values := ResolveArgs(call.args, memory).value;
      var result := definitions[call.location].callback(values);
      && |values| == |call.args|
      && (forall i :: 0 <= i < |values| ==> Resolve(call.args[i], memory) == Ok(values[i]))
      && (result.Raised? ==> Step(call, memory, definitions) == Stop(Failed(result.error)))
      && (result.Returned? && call.resultLocation != [] ==>
            Step(call, memory, definitions) == Next(memory[call.resultLocation := result.value]))
      && (result.Returned? && call.resultLocation == [] ==>
            Step(call, memory, definitions) == Next(memory))
  {
  }

  /** A call with an empty result location never creates or overwrites a memory entry. */
  lemma DiscardedResult(call: Action, memory: Memory, definitions: Definitions)
    requires call.CallFunction? && call.resultLocation == []
    ensures Step(call, memory, definitions).Next? ==> Step(call, memory, definitions).memory == memory
  {
  }
}
