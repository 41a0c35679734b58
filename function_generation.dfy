/**
 * The per-function code generation context: the basic blocks of the function
 * under construction, the insertion position and its "after terminator"
 * flag, the GC slot counters, and the values returned from each block.
 * Instructions are appended to blocks; LLVM's own state is abstracted into
 * the instruction lists.
 */
module FunctionGeneration {
  import opened Wrappers
  import opened CodeGenIr

  /** The five blocks every function starts with, in creation order. */
  const PrologueBlock: BlockId := 0
  const LocalsInitBlock: BlockId := 1
  const EntryBlock: BlockId := 2
  const EpilogueBlock: BlockId := 3
  const CleanupLandingpad: BlockId := 4
  const FrameBlockCount: nat := 5

  /** The typeinfo of the C++ holder of Kotlin exceptions. */
  const KotlinExceptionRttiGlobal: Value := Global("_ZTI18ExceptionObjHolder")

  /** A call as built: its result, callee, arguments and unwind edge (none for a plain call). */
  datatype EmittedCall = EmittedCall(result: Value, callee: Callee, args: seq<Value>, unwind: Option<BlockId>)

  /** The unwind edge a call gets: none when it is built as a plain call. */
  function UnwindEdge(noUnwind: bool, handler: ExceptionHandler): Option<BlockId> {
    if noUnwind then None
    else match handler
      case NoHandler => None
      case Caller => Some(CleanupLandingpad)
      case Local(unwind) => Some(unwind)
  }

  /** The instruction a store of `value` at `address` is built as; `result` names a barrier call's result. */
  function StoreInstr(kind: StoreKind, value: Value, address: Value, result: Value): Instr {
    match kind
    case PlainStore => Store(value, address)
    case BarrierCall(fn) => Call(result, Runtime(fn), [address, value])
  }

  function Last<T>(s: seq<T>): T
    requires |s| > 0
  {
    s[|s| - 1]
  }

  /** What block `b` held before code was appended to it: nothing when `b` is new. */
  function Prior(bs: seq<seq<Instr>>, b: nat): seq<Instr> {
    if b < |bs| then bs[b] else []
  }

  /** A position holder: not yet positioned, or at the end of a block. */
  datatype Position = Unpositioned | At(block: BlockId, afterTerminator: bool)

  datatype ReturnKind = VoidReturn | ObjectReturn | ScalarReturn

  /** `bs` with `i` appended to block `b`, where `b == |bs|` appends a new block. */
  function Appended(bs: seq<seq<Instr>>, b: nat, i: Instr): (r: seq<seq<Instr>>)
    requires b <= |bs|
    ensures |r| == if b == |bs| then |bs| + 1 else |bs|
    ensures r[b] == (if b == |bs| then [] else bs[b]) + [i]
    ensures forall k :: 0 <= k < |bs| && k != b ==> r[k] == bs[k]
  {
    if b == |bs| then bs + [[i]] else bs[b := bs[b] + [i]]
  }

  /** Where an instruction built at the end of `b` lands: a fresh block when `b` is terminated. */
  function InsertionBlock(bs: seq<seq<Instr>>, b: BlockId, afterTerminator: bool): nat {
    if afterTerminator then |bs| else b
  }

  /**
   * The blocks after a call built at `pos`: with no unwind edge a plain call
   * at the insertion point; otherwise an invoke there whose normal edge is a
   * new block.
   */
  /**
   * The blocks of a filtering handler: the landing pad `lp` compares the
   * exception's type with Kotlin's and branches to the forwarding block
   * `first + 1`, which ends by rethrowing, or to the fatal block `first`,
   * which terminates and then spins in `first + 2`; values are numbered from `n`.
   */
  predicate FilteringHandlerBlocks(bs: seq<seq<Instr>>, lp: BlockId, first: BlockId, n: nat, model: MemoryModel) {
    lp < |bs| && first + 3 <= |bs| &&
    bs[lp] == [LandingPad(Val(n), [KotlinExceptionRtti, CatchAll], false),
               Op(Val(n + 1), ExtractValue(1), [Val(n)]),
               Instr.Call(Val(n + 2), Runtime(EhTypeidFor), [KotlinExceptionRttiGlobal]),
               Op(Val(n + 3), IcmpEq, [Val(n + 1), Val(n + 2)]),
               Instr.CondBr(Val(n + 3), first + 1, first)] &&
    |bs[first + 1]| == 7 && bs[first + 1][6] == Throw(Val(n + 7)) &&
    |bs[first]| == 4 &&
    bs[first][2] == Instr.Call(Val(n + (if model == Strict then 12 else 13)), Runtime(CxxStdTerminate), []) &&
    bs[first][3] == Instr.Br(first + 2) && bs[first + 2] == [Instr.Br(first + 2)]
  }

  function RawCallBlocks(bs: seq<seq<Instr>>, pos: Position, result: Value, callee: Callee, args: seq<Value>,
                         unwind: Option<BlockId>): seq<seq<Instr>>
    requires pos.At? && pos.block < |bs|
  {
    match unwind
    case None => Appended(bs, InsertionBlock(bs, pos.block, pos.afterTerminator), Instr.Call(result, callee, args))
    case Some(u) =>
      Appended(bs + [[]], InsertionBlock(bs + [[]], pos.block, pos.afterTerminator), Invoke(result, callee, args, |bs|, u))
  }

  /** Where code continues after a call built at `pos`: after the plain call, or in the invoke's new normal block. */
  function RawCallPosition(bs: seq<seq<Instr>>, pos: Position, unwind: Option<BlockId>): Position
    requires pos.At?
  {
    match unwind
    case None => At(InsertionBlock(bs, pos.block, pos.afterTerminator), false)
    case Some(_) => At(|bs|, false)
  }

  /** The blocks after the address of frame slot `index` is computed at the end of locals_init. */
  function WithSlotAddress(bs: seq<seq<Instr>>, address: Value, slotsPhi: Value, index: nat): seq<seq<Instr>>
    requires LocalsInitBlock < |bs|
  {
    Appended(bs, InsertionBlock(bs, LocalsInitBlock, EndsWithTerminator(bs[LocalsInitBlock])),
             SlotAddress(address, slotsPhi, index))
  }

  /** Code is only ever appended: no block disappears and no instruction is rewritten. */
  ghost predicate Grows(before: seq<seq<Instr>>, after: seq<seq<Instr>>) {
    |before| <= |after| && forall b :: 0 <= b < |before| ==> before[b] <= after[b]
  }

  /** Functions of the runtime that code generation calls without an exception handler. */
  predicate CalledWithoutHandler(fn: RuntimeFunction) {
    fn != FreezeSubgraph && fn != CheckMainThread
  }

  /** An entry into or an exit from the GC frame, with the arguments of the runtime call. */
  datatype FrameEvent = Entered(args: seq<Value>) | Left(args: seq<Value>)

  /** The arguments of both frame calls: the slot array, the skipped slots, the slot count. */
  function FrameArgs(slots: Value, skipSlots: nat, slotCount: nat): seq<Value> {
    [slots, IntConst(skipSlots), IntConst(slotCount)]
  }

  function FrameEventOf(c: EmittedCall): seq<FrameEvent> {
    match c.callee
    case Runtime(EnterFrame) => [Entered(c.args)]
    case Runtime(LeaveFrame) => [Left(c.args)]
    case _ => []
  }

  /** The frame entries and exits among `cs`, in order. */
  function FrameEvents(cs: seq<EmittedCall>): seq<FrameEvent> {
    if cs == [] then [] else FrameEvents(cs[..|cs| - 1]) + FrameEventOf(cs[|cs| - 1])
  }

  lemma FrameEventsAppend(cs: seq<EmittedCall>, c: EmittedCall)
    ensures FrameEvents(cs + [c]) == FrameEvents(cs) + FrameEventOf(c)
  {
    assert (cs + [c])[..|cs|] == cs;
  }

  /** Appending `x` to a block and then `y` and `z` appends `x + y + z` at once. */
  lemma AppendToBlockTwice(bs: seq<seq<Instr>>, mid: seq<seq<Instr>>, b: nat, x: seq<Instr>, y: seq<Instr>, z: seq<Instr>)
    requires b < |bs| && mid == bs[b := bs[b] + x]
    ensures mid[b := mid[b] + y + z] == bs[b := bs[b] + (x + y + z)]
  {
    assert mid[b] + y + z == bs[b] + (x + y + z);
  }

  /** Appending `x` to a block and then `y` appends `x` followed by `y`. */
  lemma AppendToBlockThen(bs: seq<seq<Instr>>, mid: seq<seq<Instr>>, b: nat, x: seq<Instr>, y: seq<Instr>)
    requires b < |bs| && mid == bs[b := bs[b] + x]
    ensures mid[b := mid[b] + y] == bs[b := bs[b] + x + y]
  {
  }

  /**
   * Opening the frame (prologue and locals_init) and then closing it
   * (epilogue and cleanup) gives the frame blocks' shapes from the start.
   */
  lemma FrameShapeComposed(before: seq<seq<Instr>>, frameOpen: seq<seq<Instr>>, closed: seq<seq<Instr>>,
                           setup: seq<Instr>, epilogueCode: seq<Instr>, n: nat, terminator: Option<Callee>,
                           debug: bool, needSlots: bool, phi: Value, skipSlots: nat, slotCount: nat)
    requires FrameBlockCount <= |before| && |frameOpen| == |before| && |frameOpen| <= |closed|
    requires frameOpen[PrologueBlock] == before[PrologueBlock] + setup + [Br(LocalsInitBlock)]
    requires frameOpen[LocalsInitBlock] == before[LocalsInitBlock] + [Br(EntryBlock)]
    requires frameOpen[EpilogueBlock] == before[EpilogueBlock] && frameOpen[CleanupLandingpad] == before[CleanupLandingpad]
    requires closed[PrologueBlock] == frameOpen[PrologueBlock] && closed[LocalsInitBlock] == frameOpen[LocalsInitBlock]
    requires closed[EpilogueBlock] == frameOpen[EpilogueBlock] + epilogueCode
    requires CleanupShape(closed, CleanupLandingpad, frameOpen[CleanupLandingpad], |frameOpen|, n, terminator, debug, needSlots, phi, skipSlots, slotCount)
    ensures FrameBuilt(before, closed, setup, epilogueCode, n, terminator, debug, needSlots, phi, skipSlots, slotCount)
  {
  }

  /** An append to a block followed by a second append to it is one append of both, grouped to the right. */
  lemma AppendToBlockJoin(bs: seq<seq<Instr>>, mid: seq<seq<Instr>>, b: nat, x: seq<Instr>, y: seq<Instr>)
    requires b < |bs| && mid == bs[b := bs[b] + x]
    ensures mid[b := mid[b] + y] == bs[b := bs[b] + (x + y)]
  {
    assert mid[b] + y == bs[b] + (x + y);
  }

  lemma CatchLeavesFrameEvents(cs: seq<EmittedCall>, n: nat, memoryModel: MemoryModel)
    ensures var endCatch := if memoryModel == Strict then n + 5 else n + 6;
      FrameEvents(cs + [EmittedCall(Val(n + 1), Runtime(CxaBeginCatch), [Val(n)], None)] +
        (if memoryModel == Strict then [] else [EmittedCall(Val(n + 5), Runtime(UpdateStackRef), [Val(n + 4), Val(n + 3)], None)]) +
        [EmittedCall(Val(endCatch), Runtime(CxaEndCatch), [], None)]) == FrameEvents(cs)
  {
    var begin := EmittedCall(Val(n + 1), Runtime(CxaBeginCatch), [Val(n)], None);
    var update := EmittedCall(Val(n + 5), Runtime(UpdateStackRef), [Val(n + 4), Val(n + 3)], None);
    var end := EmittedCall(Val(if memoryModel == Strict then n + 5 else n + 6), Runtime(CxaEndCatch), [], None);
    FrameEventsAppend(cs, begin);
    var begun := cs + [begin];
    if memoryModel == Strict {
      assert begun + [] == begun;
      FrameEventsAppend(begun, end);
    } else {
      FrameEventsAppend(begun, update);
      FrameEventsAppend(begun + [update], end);
    }
  }

  /**
   * What a function does with its frame: when it needs one, it enters it
   * once with the slot array and leaves it on each of its `exits`, every
   * time through the phi that carries the same array, with the same skip
   * and slot counts; otherwise it never touches the frame.
   */
  function FrameProtocol(needSlots: bool, slots: Value, phi: Value, skipSlots: nat, slotCount: nat, exits: nat)
    : seq<FrameEvent>
  {
    if needSlots then [Entered(FrameArgs(slots, skipSlots, slotCount))] + Exits(phi, skipSlots, slotCount, exits)
    else []
  }

  /** `exits` exits from the frame, each through the slot phi `phi`. */
  function Exits(phi: Value, skipSlots: nat, slotCount: nat, exits: nat): seq<FrameEvent> {
    if exits == 0 then [] else Exits(phi, skipSlots, slotCount, exits - 1) + [Left(FrameArgs(phi, skipSlots, slotCount))]
  }

  /** The frame exit `releaseVars` makes, if any. */
  function Release(needSlots: bool, phi: Value, skipSlots: nat, slotCount: nat): seq<FrameEvent> {
    if needSlots then [Left(FrameArgs(phi, skipSlots, slotCount))] else []
  }

  /**
   * The frame calls of an epilogue: the entry, the exit on the return path
   * when the function can return, and the exit on the unwinding path.
   */
  lemma {:induction false} FrameProtocolOfExits(needSlots: bool, slots: Value, phi: Value, skipSlots: nat, slotCount: nat, returning: bool)
    ensures FrameProtocol(needSlots, slots, phi, skipSlots, slotCount, if returning then 2 else 1) ==
      (if needSlots then [Entered(FrameArgs(slots, skipSlots, slotCount))] else []) +
      (if returning then Release(needSlots, phi, skipSlots, slotCount) else []) +
      Release(needSlots, phi, skipSlots, slotCount)
  {
    var left := Left(FrameArgs(phi, skipSlots, slotCount));
    assert Exits(phi, skipSlots, slotCount, 1) == [] + [left];
    assert Exits(phi, skipSlots, slotCount, 2) == [left] + [left];
  }

  /** Entering the frame and then leaving it on each exit makes the epilogue's frame calls. */
  lemma FrameEventsComposed(e0: seq<FrameEvent>, e1: seq<FrameEvent>, e2: seq<FrameEvent>, needSlots: bool, slots: Value,
                            phi: Value, skipSlots: nat, slotCount: nat, returning: bool)
    requires e1 == e0 + (if needSlots then [Entered(FrameArgs(slots, skipSlots, slotCount))] else [])
    requires e2 == e1 + (if returning then Release(needSlots, phi, skipSlots, slotCount) else []) +
                        Release(needSlots, phi, skipSlots, slotCount)
    ensures e2 == e0 + FrameProtocol(needSlots, slots, phi, skipSlots, slotCount, if returning then 2 else 1)
  {
    FrameProtocolOfExits(needSlots, slots, phi, skipSlots, slotCount, returning);
  }

  /**
   * The code the epilogue builds into the prologue block before its branch
   * to locals_init, the first value being `n`: the slot array when one is
   * needed, its zeroing and the frame entry when the function has slots of
   * its own.
   */
  function SlotArraySetup(n: nat, needSlotsPhi: bool, needSlots: bool, slotCount: nat, skipSlots: nat, pointerSize: nat)
    : seq<Instr>
  {
    var slots := if needSlotsPhi then Val(n) else NullPointer;
    (if needSlotsPhi then [ArrayAlloca(slots, slotCount)] else []) +
    (if needSlots then ZeroAndEnter(slots, if needSlotsPhi then n + 1 else n, slotCount, skipSlots, pointerSize) else [])
  }

  /** Zeroing the slot array `slots` and entering it as the frame, the first value being `m`. */
  function ZeroAndEnter(slots: Value, m: nat, slotCount: nat, skipSlots: nat, pointerSize: nat): seq<Instr> {
    [Op(Val(m), Bitcast, [slots]),
     Call(Val(m + 1), Runtime(Memset), [Val(m), IntConst(0), IntConst(slotCount * pointerSize), IntConst(0)]),
     Call(Val(m + 2), Runtime(EnterFrame), FrameArgs(slots, skipSlots, slotCount))]
  }

  /** The frame exit `releaseVars` builds, its call's value being `n`. */
  function ReleaseCode(needSlots: bool, n: nat, phi: Value, skipSlots: nat, slotCount: nat): seq<Instr> {
    if needSlots then [Call(Val(n), Runtime(LeaveFrame), FrameArgs(phi, skipSlots, slotCount))] else []
  }

  /** The store of `result` into the caller's return slot, if there is one, its value being `n`. */
  function ReturnSlotStore(returnSlot: Option<Value>, memoryModel: MemoryModel, result: Value, n: nat): seq<Instr> {
    match returnSlot
    case Some(slot) => [StoreInstr(RefStore(ReturnLocation, memoryModel), result, slot, Val(n))]
    case None => []
  }

  /** The values the store into the return slot uses up: one when it is a runtime call. */
  function ReturnSlotStoreValues(returnSlot: Option<Value>, memoryModel: MemoryModel): nat {
    if returnSlot.Some? && !RefStore(ReturnLocation, memoryModel).PlainStore? then 1 else 0
  }

  /**
   * The return of `result` with first value `n`: the store into the return
   * slot, the frame exit and the return itself.
   */
  function ReturnCode(result: Value, returnSlot: Option<Value>, memoryModel: MemoryModel, n: nat,
                      needSlots: bool, phi: Value, skipSlots: nat, slotCount: nat): seq<Instr>
  {
    ReturnSlotStore(returnSlot, memoryModel, result, n) +
    ReleaseCode(needSlots, n + ReturnSlotStoreValues(returnSlot, memoryModel), phi, skipSlots, slotCount) +
    [Ret(result)]
  }

  /**
   * The code of the epilogue block, with first value `n`: a frame exit and
   * a void return; or, when blocks returned values, their phi `Val(n)` and
   * its return; or, when nothing returns, unreachable.
   */
  function EpilogueCode(returnKind: ReturnKind, hasReturns: bool, returnSlot: Option<Value>, memoryModel: MemoryModel, n: nat,
                        needSlots: bool, phi: Value, skipSlots: nat, slotCount: nat): seq<Instr>
  {
    if returnKind == VoidReturn then ReleaseCode(needSlots, n, phi, skipSlots, slotCount) + [RetVoid]
    else if hasReturns then [Phi(Val(n))] + ReturnCode(Val(n), returnSlot, memoryModel, n + 1, needSlots, phi, skipSlots, slotCount)
    else [Unreachable]
  }

  /** The store of the return phi `Val(n)` into the caller's return slot, if there is one. */
  function ReturnStore(returnSlot: Option<Value>, memoryModel: MemoryModel, n: nat): Option<Instr> {
    match returnSlot
    case Some(slot) => Some(StoreInstr(RefStore(ReturnLocation, memoryModel), Val(n), slot, Val(n + 1)))
    case None => None
  }

  /**
   * The epilogue block `after` is `before` followed by the return code: a
   * void return; or, when blocks returned values, their phi `Val(n)`, the
   * store into the return slot right after it, and the return of the phi;
   * or, when nothing returns, unreachable.
   */
  predicate ReturnShape(before: seq<Instr>, after: seq<Instr>, returnKind: ReturnKind, hasReturns: bool, n: nat,
                        store: Option<Instr>)
  {
    var k := |before|;
    |after| > k && after[..k] == before &&
    if returnKind == VoidReturn then after[|after| - 1] == RetVoid
    else if hasReturns then
      |after| > k + 1 && after[k] == Phi(Val(n)) && after[|after| - 1] == Ret(Val(n)) &&
      (store.Some? ==> after[k + 1] == store.value)
    else after == before + [Unreachable]
  }

  /**
   * The epilogue code has the return shape: whatever the frame release
   * in between, the return phi comes first, the store into the return
   * slot right after it, and the return of the phi last.
   */
  lemma EpilogueCodeShape(before: seq<Instr>, returnKind: ReturnKind, hasReturns: bool, returnSlot: Option<Value>,
                          memoryModel: MemoryModel, n: nat, needSlots: bool, phi: Value, skipSlots: nat, slotCount: nat)
    ensures ReturnShape(before, before + EpilogueCode(returnKind, hasReturns, returnSlot, memoryModel, n, needSlots, phi, skipSlots, slotCount),
                        returnKind, hasReturns, n, ReturnStore(returnSlot, memoryModel, n))
  {
    var code := EpilogueCode(returnKind, hasReturns, returnSlot, memoryModel, n, needSlots, phi, skipSlots, slotCount);
    var after := before + code;
    assert after[..|before|] == before;
    if returnKind != VoidReturn && hasReturns {
      var store := ReturnSlotStore(returnSlot, memoryModel, Val(n), n + 1);
      assert code == [Phi(Val(n))] + store +
        ReleaseCode(needSlots, n + 1 + ReturnSlotStoreValues(returnSlot, memoryModel), phi, skipSlots, slotCount) + [Ret(Val(n))];
      assert after[|before|] == code[0];
    }
  }

  /** The trap a debug build puts before unreachable, its value being `n`. */
  function TrapCode(debug: bool, n: nat): seq<Instr> {
    if debug then [Call(Val(n), Runtime(LlvmTrap), [])] else []
  }

  /**
   * The block a foreign exception reaching the cleanup landing pad goes to,
   * the first value being `n`: it begins the C++ catch and calls the
   * terminator from inside it.
   */
  function UnexpectedExceptionCode(landingpad: Value, terminator: Callee, n: nat, debug: bool): seq<Instr> {
    [Op(Val(n), ExtractValue(0), [landingpad]),
     Call(Val(n + 1), Runtime(CxaBeginCatch), [Val(n)]),
     Call(Val(n + 2), terminator, [])] +
    TrapCode(debug, n + 3) + [Unreachable]
  }

  /**
   * The cleanup landing pad `c` (whose code was `before`) with the blocks
   * from `base` on, the landing pad being `Val(n)`: without a terminator
   * for foreign exceptions it leaves the frame and resumes unwinding; with
   * one it also catches everything but Kotlin exceptions, sends a negative
   * selector (a caught foreign exception) to the terminator and the rest to
   * a block that leaves the frame and resumes.
   */
  predicate CleanupShape(bs: seq<seq<Instr>>, c: nat, before: seq<Instr>, base: nat, n: nat, terminator: Option<Callee>,
                         debug: bool, needSlots: bool, phi: Value, skipSlots: nat, slotCount: nat)
  {
    c < base <= |bs| &&
    match terminator
    case None =>
      |bs| == base &&
      bs[c] == before + [LandingPad(Val(n), [], true)] + ReleaseCode(needSlots, n + 1, phi, skipSlots, slotCount) + [Resume(Val(n))]
    case Some(t) =>
      var m := n + 6 + |TrapCode(debug, 0)|;
      |bs| == base + 2 &&
      bs[c] == before + [LandingPad(Val(n), [AllButKotlinException], true), Op(Val(n + 1), ExtractValue(1), [Val(n)]),
                         Op(Val(n + 2), IcmpLt, [Val(n + 1), IntConst(0)]), CondBr(Val(n + 2), base + 1, base)] &&
      bs[base] == ReleaseCode(needSlots, m, phi, skipSlots, slotCount) + [Resume(Val(n))] &&
      bs[base + 1] == UnexpectedExceptionCode(Val(n), t, n + 3, debug)
  }

  /**
   * A landing pad `Val(n)` that catches everything, followed by the
   * extraction of the Kotlin exception `Val(n + 4)`: the C++ catch begins,
   * the exception is loaded and stored into a fresh GC slot `Val(n + 5)`,
   * and the catch ends.
   */
  function KotlinCatchCode(n: nat, memoryModel: MemoryModel): seq<Instr> {
    [LandingPad(Val(n), [CatchAll], false)] + ExtractionCode(Val(n), n + 1, memoryModel)
  }

  /**
   * The code that takes the Kotlin exception out of `landingpad`, with
   * first value `n`: begin the catch, load the exception from the thrown
   * object, keep it in a fresh slot and end the catch.
   */
  function ExtractionCode(landingpad: Value, n: nat, memoryModel: MemoryModel): seq<Instr> {
    var endCatch := if memoryModel == Strict then n + 5 else n + 6;
    [Op(Val(n), ExtractValue(0), [landingpad]),
     Call(Val(n + 1), Runtime(CxaBeginCatch), [Val(n)]),
     Op(Val(n + 2), Bitcast, [Val(n + 1)]),
     Op(Val(n + 3), Load, [Val(n + 2)]),
     StoreInstr(RefStore(StackLocation, memoryModel), Val(n + 3), Val(n + 4), Val(n + 5)),
     Call(Val(endCatch), Runtime(CxaEndCatch), [])]
  }

  /**
   * Begin-catch code appended at `b`, then the load and store of the exception,
   * then the end of the catch: together they append the extraction code.
   */
  lemma ExtractionBuilt(bs0: seq<seq<Instr>>, bs1: seq<seq<Instr>>, bs2: seq<seq<Instr>>, bs3: seq<seq<Instr>>,
                        b: nat, landingpad: Value, n: nat, model: MemoryModel)
    requires b <= |bs0|
    requires bs1 == Appended(Appended(Appended(bs0, b, Op(Val(n), ExtractValue(0), [landingpad])),
                                      b, Call(Val(n + 1), Runtime(CxaBeginCatch), [Val(n)])),
                             b, Op(Val(n + 2), Bitcast, [Val(n + 1)]))
    requires b < |bs2| && bs2[b] == Prior(bs1, b) + [Op(Val(n + 3), Load, [Val(n + 2)]),
                                                    StoreInstr(RefStore(StackLocation, model), Val(n + 3), Val(n + 4), Val(n + 5))]
    requires bs3 == Appended(bs2, b, Call(Val(if model == Strict then n + 5 else n + 6), Runtime(CxaEndCatch), []))
    ensures b < |bs3| && bs3[b] == Prior(bs0, b) + ExtractionCode(landingpad, n, model)
  {
  }

  /** The four frame blocks the epilogue appends to are still open. */
  predicate FrameBlocksOpen(bs: seq<seq<Instr>>) {
    FrameBlockCount <= |bs| &&
    !EndsWithTerminator(bs[PrologueBlock]) && !EndsWithTerminator(bs[LocalsInitBlock]) &&
    !EndsWithTerminator(bs[EpilogueBlock]) && !EndsWithTerminator(bs[CleanupLandingpad])
  }

  /**
   * The prologue, locals_init and epilogue blocks after the epilogue, from
   * `before`: the slot array set up by `setup` and the branch to
   * locals_init, the branch to the entry block, and `epilogueCode`.
   */
  predicate FrameBlocksShape(before: seq<seq<Instr>>, prologue: seq<Instr>, localsInit: seq<Instr>, epilogue: seq<Instr>,
                             setup: seq<Instr>, epilogueCode: seq<Instr>)
    requires FrameBlockCount <= |before|
  {
    prologue == before[PrologueBlock] + setup + [Br(LocalsInitBlock)] &&
    localsInit == before[LocalsInitBlock] + [Br(EntryBlock)] &&
    epilogue == before[EpilogueBlock] + epilogueCode
  }

  /**
   * The frame blocks of `after`, from `before`: the prologue, locals_init
   * and epilogue blocks as `FrameBlocksShape` says and the cleanup landing
   * pad, landing pad `Val(n)`, as `CleanupShape` says.
   */
  predicate FrameBuilt(before: seq<seq<Instr>>, after: seq<seq<Instr>>, setup: seq<Instr>, epilogueCode: seq<Instr>,
                       n: nat, terminator: Option<Callee>, debug: bool, needSlots: bool, phi: Value, skipSlots: nat, slotCount: nat)
  {
    FrameBlockCount <= |before| <= |after| &&
    FrameBlocksShape(before, after[PrologueBlock], after[LocalsInitBlock], after[EpilogueBlock], setup, epilogueCode) &&
    CleanupShape(after, CleanupLandingpad, before[CleanupLandingpad], |before|, n, terminator, debug, needSlots, phi, skipSlots, slotCount)
  }

  /** Whether calling `terminator` plainly, with no handler and no result slot, is an error. */
  function TerminatorCallFails(terminator: Callee, noUnwindDeclarations: iset<Callee>, objectReturning: iset<Callee>): bool {
    terminator in objectReturning || terminator !in noUnwindDeclarations
  }

  /** The callees of `cs`, in order. */
  function Callees(cs: seq<EmittedCall>): seq<Callee> {
    seq(|cs|, i requires 0 <= i < |cs| => cs[i].callee)
  }

  /** `m` with the incoming edges `edges` added to the phi `phi`. */
  function AddIncoming(m: map<Value, set<(BlockId, Value)>>, phi: Value, edges: set<(BlockId, Value)>)
    : map<Value, set<(BlockId, Value)>>
  {
    m[phi := (if phi in m then m[phi] else {}) + edges]
  }

  /** Adding incoming edges to a phi keeps every edge already recorded. */
  lemma AddIncomingKeeps(m: map<Value, set<(BlockId, Value)>>, phi: Value, edges: set<(BlockId, Value)>,
                         p: Value, edge: (BlockId, Value))
    requires p in m && edge in m[p]
    ensures p in AddIncoming(m, phi, edges) && edge in AddIncoming(m, phi, edges)[p]
  {
  }

  /** The incoming edges of the return phi: each returning block with its value. */
  function ReturnEdges(returnsByBlock: map<BlockId, Value>): set<(BlockId, Value)> {
    set b | b in returnsByBlock :: (b, returnsByBlock[b])
  }

  class FunctionGenerationContext {
    const memoryModel: MemoryModel
    const debug: bool
    const pointerSize: nat
    const frameOverlaySlotCount: nat
    /** Leading slots of the frame that the variable manager does not own. */
    const skipSlots: nat
    const returnKind: ReturnKind
    const parameterCount: nat
    /** The callees that are function declarations marked nounwind. */
    const noUnwindDeclarations: iset<Callee>
    /** The callees that return an object reference. */
    const objectReturning: iset<Callee>

    var forwardingForeignExceptionsTerminatedWith: Option<Callee>
    var blocks: seq<seq<Instr>>
    var phiIncoming: map<Value, set<(BlockId, Value)>>
    var nextValue: nat
    var position: Position
    var returnsByBlock: map<BlockId, Value>
    var returnSlot: Option<Value>
    var slotsPhi: Option<Value>
    var arenaSlot: Option<Value>
    var slotCount: nat
    var localAllocs: nat
    /** Every call built so far, in order. */
    ghost var calls: seq<EmittedCall>

    /** The runtime functions called without a handler are nounwind declarations returning no object. */
    predicate RuntimeNoThrow() {
      (forall fn :: CalledWithoutHandler(fn) ==> Runtime(fn) in noUnwindDeclarations) &&
      (forall fn :: Runtime(fn) !in objectReturning)
    }

    /**
     * Between operations the position is nowhere, at the entry block, or at
     * a block created after the five frame blocks.
     */
    predicate BodyPosition()
      reads this
    {
      match position
      case Unpositioned => true
      case At(b, _) => b == EntryBlock || FrameBlockCount <= b
    }

    predicate Valid()
      reads this
    {
      RuntimeNoThrow() &&
      FrameBlockCount <= |blocks| &&
      (position.At? ==> position.block < |blocks|) &&
      (forall b :: b in returnsByBlock ==> b < |blocks|) &&
      frameOverlaySlotCount <= slotCount &&
      (returnKind == ObjectReturn ==> parameterCount >= 1) &&
      (forwardingForeignExceptionsTerminatedWith.Some? ==> forwardingForeignExceptionsTerminatedWith.value.Function?)
    }

    /**
     * The discipline the generated body keeps: it stays out of the frame
     * blocks, the position flag is set exactly when the block ends with a
     * terminator, and every block that returned was terminated by its
     * branch to the epilogue; and while the slot array exists, locals_init
     * is open for more slot addresses.
     */
    predicate Disciplined()
      reads this
      requires Valid()
    {
      BodyPosition() &&
      (position.At? ==> (position.afterTerminator <==> EndsWithTerminator(blocks[position.block]))) &&
      (forall b :: b in returnsByBlock ==> EndsWithTerminator(blocks[b])) &&
      (slotsPhi.Some? ==> !EndsWithTerminator(blocks[LocalsInitBlock]))
    }

    /**
     * The slot array exists, locals_init is open for more slot addresses,
     * and code is not being built into locals_init itself.
     */
    predicate SlotsOpen()
      reads this
      requires Valid()
    {
      slotsPhi.Some? && !EndsWithTerminator(blocks[LocalsInitBlock]) &&
      (position.At? ==> position.block != LocalsInitBlock)
    }

    /** Where the next built instruction lands. */
    function Insertion(): nat
      reads this
      requires Valid() && position.At?
    {
      InsertionBlock(blocks, position.block, position.afterTerminator)
    }

    /** Nothing but code and position changed. */
    twostate predicate FrameStateUnchanged()
      reads this
    {
      returnsByBlock == old(returnsByBlock) && returnSlot == old(returnSlot) && slotsPhi == old(slotsPhi) &&
      arenaSlot == old(arenaSlot) && slotCount == old(slotCount) && localAllocs == old(localAllocs) &&
      phiIncoming == old(phiIncoming) && calls == old(calls) &&
      forwardingForeignExceptionsTerminatedWith == old(forwardingForeignExceptionsTerminatedWith)
    }

    constructor(memoryModel: MemoryModel, debug: bool, pointerSize: nat, frameOverlaySlotCount: nat,
                skipSlots: nat, returnKind: ReturnKind, parameterCount: nat,
                noUnwindDeclarations: iset<Callee>, objectReturning: iset<Callee>)
      requires forall fn :: CalledWithoutHandler(fn) ==> Runtime(fn) in noUnwindDeclarations
      requires forall fn :: Runtime(fn) !in objectReturning
      requires returnKind == ObjectReturn ==> parameterCount >= 1
      ensures Valid() && Disciplined()
      ensures blocks == [[], [], [], [], []] && position == Unpositioned
      ensures returnsByBlock == map[] && slotCount == frameOverlaySlotCount && localAllocs == 0
      ensures returnSlot == None && slotsPhi == None && arenaSlot == None
      ensures forwardingForeignExceptionsTerminatedWith == None && calls == []
      ensures this.memoryModel == memoryModel && this.debug == debug && this.pointerSize == pointerSize
      ensures this.frameOverlaySlotCount == frameOverlaySlotCount && this.skipSlots == skipSlots
      ensures this.returnKind == returnKind && this.parameterCount == parameterCount
      ensures this.noUnwindDeclarations == noUnwindDeclarations && this.objectReturning == objectReturning
    {
      this.memoryModel := memoryModel;
      this.debug := debug;
      this.pointerSize := pointerSize;
      this.frameOverlaySlotCount := frameOverlaySlotCount;
      this.skipSlots := skipSlots;
      this.returnKind := returnKind;
      this.parameterCount := parameterCount;
      this.noUnwindDeclarations := noUnwindDeclarations;
      this.objectReturning := objectReturning;
      forwardingForeignExceptionsTerminatedWith := None;
      blocks := [[], [], [], [], []];
      phiIncoming := map[];
      nextValue := 0;
      position := Unpositioned;
      returnsByBlock := map[];
      returnSlot := None;
      slotsPhi := None;
      arenaSlot := None;
      slotCount := frameOverlaySlotCount;
      localAllocs := 0;
      calls := [];
    }

    /** A fresh SSA value. */
    method NewValue() returns (v: Value)
      modifies this
      ensures v == Val(old(nextValue)) && nextValue == old(nextValue) + 1
      ensures blocks == old(blocks) && position == old(position) && FrameStateUnchanged()
    {
      v := Val(nextValue);
      nextValue := nextValue + 1;
    }

    /** Positions at the end of `b`; the flag records whether `b` is already terminated. */
    method PositionAtEnd(b: BlockId)
      requires Valid() && b < |blocks|
      modifies this
      ensures Valid()
      ensures old(Disciplined()) && (b == EntryBlock || FrameBlockCount <= b) ==> Disciplined()
      ensures blocks == old(blocks) && nextValue == old(nextValue) && FrameStateUnchanged()
      ensures position == At(b, EndsWithTerminator(blocks[b]))
    {
      position := At(b, EndsWithTerminator(blocks[b]));
    }

    /** A new empty block; where LLVM lays it out is not modelled. */
    method BasicBlock() returns (b: BlockId)
      requires Valid() && position.At?
      modifies this
      ensures Valid() && (old(Disciplined()) ==> Disciplined())
      ensures b == old(|blocks|) && blocks == old(blocks) + [[]]
      ensures position == old(position) && nextValue == old(nextValue) && FrameStateUnchanged()
    {
      b := BasicBlockInFunction();
    }

    /** A new empty block at the end of the function; needs no position. */
    method BasicBlockInFunction() returns (b: BlockId)
      requires Valid()
      modifies this
      ensures Valid() && (old(Disciplined()) ==> Disciplined())
      ensures b == old(|blocks|) && blocks == old(blocks) + [[]]
      ensures position == old(position) && nextValue == old(nextValue) && FrameStateUnchanged()
    {
      b := |blocks|;
      blocks := blocks + [[]];
    }

    /** Asking for the builder after a terminator moves it to a new "unreachable" block. */
    method MoveOffTerminator()
      requires Valid() && position.At?
      modifies this
      ensures Valid() && (old(Disciplined()) ==> Disciplined())
      ensures position == At(old(Insertion()), false)
      ensures blocks == if old(position.afterTerminator) then old(blocks) + [[]] else old(blocks)
      ensures nextValue == old(nextValue) && FrameStateUnchanged()
    {
      if position.afterTerminator {
        var b := BasicBlock();
        PositionAtEnd(b);
      }
    }

    /** Builds `i` at the insertion position. */
    method Emit(i: Instr)
      requires Valid() && position.At?
      modifies this
      ensures Valid()
      ensures blocks == Appended(old(blocks), old(Insertion()), i)
      ensures position == At(old(Insertion()), false)
      ensures nextValue == old(nextValue) && FrameStateUnchanged()
      ensures old(Disciplined()) && !IsTerminator(i) ==> Disciplined()
    {
      MoveOffTerminator();
      blocks := blocks[position.block := blocks[position.block] + [i]];
    }

    /** Builds a terminator and sets the flag. */
    method EmitTerminator(i: Instr)
      requires Valid() && position.At? && IsTerminator(i)
      modifies this
      ensures Valid()
      ensures blocks == Appended(old(blocks), old(Insertion()), i)
      ensures position == At(old(Insertion()), true)
      ensures nextValue == old(nextValue) && FrameStateUnchanged()
      ensures old(Disciplined()) ==> Disciplined()
    {
      Emit(i);
      position := position.(afterTerminator := true);
    }

    /** Builds a non-terminator at the open end of the current block. */
    method EmitHere(i: Instr)
      requires Valid() && position.At? && !position.afterTerminator && !IsTerminator(i)
      modifies this
      ensures Valid() && (old(Disciplined()) ==> Disciplined())
      ensures position == old(position) && nextValue == old(nextValue) && FrameStateUnchanged()
      ensures blocks == old(blocks[position.block := blocks[position.block] + [i]])
    {
      Emit(i);
    }

    /** Builds a landing pad with `clauses` at the end of the current block. */
    method LandingPadHere(clauses: seq<Clause>, cleanup: bool) returns (landingpad: Value)
      requires Valid() && position.At? && !position.afterTerminator
      modifies this
      ensures Valid() && (old(Disciplined()) ==> Disciplined())
      ensures landingpad == Val(old(nextValue)) && nextValue == old(nextValue) + 1
      ensures position == old(position) && FrameStateUnchanged()
      ensures blocks == old(blocks[position.block := blocks[position.block] + [LandingPad(landingpad, clauses, cleanup)]])
    {
      landingpad := NewValue();
      EmitHere(LandingPad(landingpad, clauses, cleanup));
    }

    /** A value computed by `op` at the open end of the current block. */
    method OpHere(op: Operation, operands: seq<Value>) returns (v: Value)
      requires Valid() && position.At? && !position.afterTerminator
      modifies this
      ensures Valid() && (old(Disciplined()) ==> Disciplined())
      ensures v == Val(old(nextValue)) && nextValue == old(nextValue) + 1
      ensures position == old(position) && FrameStateUnchanged()
      ensures blocks == old(blocks[position.block := blocks[position.block] + [Op(v, op, operands)]])
    {
      v := NewValue();
      EmitHere(Op(v, op, operands));
    }

    /** A call of a handler-less runtime function at the open end of the current block. */
    method CallRuntimeHere(fn: RuntimeFunction, args: seq<Value>) returns (v: Value)
      requires Valid() && position.At? && !position.afterTerminator && CalledWithoutHandler(fn)
      modifies this
      ensures Valid() && (old(Disciplined()) ==> Disciplined())
      ensures v == Val(old(nextValue)) && nextValue == old(nextValue) + 1
      ensures blocks == old(blocks[position.block := blocks[position.block] + [Instr.Call(v, Runtime(fn), args)]])
      ensures calls == old(calls) + [EmittedCall(v, Runtime(fn), args, None)]
      ensures FrameEvents(calls) == FrameEvents(old(calls)) + FrameEventOf(EmittedCall(v, Runtime(fn), args, None))
      ensures position == old(position)
      ensures returnsByBlock == old(returnsByBlock) && returnSlot == old(returnSlot) && slotsPhi == old(slotsPhi)
      ensures arenaSlot == old(arenaSlot) && slotCount == old(slotCount) && localAllocs == old(localAllocs)
      ensures phiIncoming == old(phiIncoming)
      ensures forwardingForeignExceptionsTerminatedWith == old(forwardingForeignExceptionsTerminatedWith)
    {
      v := CallRuntime(fn, args);
      FrameEventsAppend(old(calls), EmittedCall(v, Runtime(fn), args, None));
    }

    method Br(target: BlockId)
      requires Valid() && position.At?
      modifies this
      ensures Valid() && (old(Disciplined()) ==> Disciplined())
      ensures blocks == Appended(old(blocks), old(Insertion()), Instr.Br(target))
      ensures position == At(old(Insertion()), true)
      ensures nextValue == old(nextValue) && FrameStateUnchanged()
    {
      EmitTerminator(Instr.Br(target));
    }

    method CondBr(condition: Value, ifTrue: BlockId, ifFalse: BlockId)
      requires Valid() && position.At?
      modifies this
      ensures Valid() && (old(Disciplined()) ==> Disciplined())
      ensures blocks == Appended(old(blocks), old(Insertion()), Instr.CondBr(condition, ifTrue, ifFalse))
      ensures position == At(old(Insertion()), true)
      ensures nextValue == old(nextValue) && FrameStateUnchanged()
    {
      EmitTerminator(Instr.CondBr(condition, ifTrue, ifFalse));
    }

    /**
     * Returns branch to the shared epilogue; the value is recorded per block
     * for the epilogue's phi, and a second return from one block is an error
     * (raised after the branch was built).
     */
    method Ret(value: Option<Value>) returns (r: Outcome)
      requires Valid() && position.At?
      modifies this
      ensures Valid()
      ensures blocks == Appended(old(blocks), old(Insertion()), Instr.Br(EpilogueBlock))
      ensures r.Fail? <==> old(Insertion()) in old(returnsByBlock)
      ensures r.Fail? ==> r.error == RetTwiceInBlock && returnsByBlock == old(returnsByBlock) && position == At(old(Insertion()), false)
      ensures r.Pass? ==> position == At(old(Insertion()), true)
      ensures r.Pass? ==> returnsByBlock == match value
        case Some(v) => old(returnsByBlock)[old(Insertion()) := v]
        case None => old(returnsByBlock)
      ensures old(Disciplined()) ==> r.Pass? && Disciplined()
      ensures nextValue == old(nextValue) && slotCount == old(slotCount) && localAllocs == old(localAllocs)
      ensures calls == old(calls) && phiIncoming == old(phiIncoming)
      ensures forwardingForeignExceptionsTerminatedWith == old(forwardingForeignExceptionsTerminatedWith)
      ensures slotsPhi == old(slotsPhi) && returnSlot == old(returnSlot) && arenaSlot == old(arenaSlot)
    {
      Emit(Instr.Br(EpilogueBlock));
      var b := position.block;
      if b in returnsByBlock {
        return Fail(RetTwiceInBlock);
      }
      if value.Some? {
        returnsByBlock := returnsByBlock[b := value.value];
      }
      position := position.(afterTerminator := true);
      r := Pass;
    }

    /**
     * A nounwind declaration is called plainly; anything else is invoked,
     * unwinding to the handler's block, and code continues in a new
     * "call_success" block. Without a handler that is an error, raised
     * before anything is built.
     */
    method CallRaw(callee: Callee, args: seq<Value>, handler: ExceptionHandler) returns (r: Result<Value>)
      requires Valid() && position.At?
      modifies this
      ensures Valid() && (old(Disciplined()) ==> Disciplined())
      ensures r.Err? <==> callee !in noUnwindDeclarations && handler.NoHandler?
      ensures r.Err? ==> (r.error.NoExceptionHandler? &&
        blocks == old(blocks) && position == old(position) && nextValue == old(nextValue) && calls == old(calls))
      ensures r.Ok? ==> r.value == Val(old(nextValue)) && nextValue == old(nextValue) + 1
      ensures callee in noUnwindDeclarations ==>
        blocks == Appended(old(blocks), old(Insertion()), Instr.Call(r.value, callee, args)) &&
        position == At(old(Insertion()), false) &&
        calls == old(calls) + [EmittedCall(r.value, callee, args, None)]
      ensures callee !in noUnwindDeclarations && !handler.NoHandler? ==>
        var success := old(|blocks|);
        var unwind := UnwindTarget(handler, CleanupLandingpad).value;
        blocks == Appended(old(blocks) + [[]], InsertionBlock(old(blocks) + [[]], old(position.block), old(position.afterTerminator)),
                           Invoke(r.value, callee, args, success, unwind)) &&
        position == At(success, false) &&
        calls == old(calls) + [EmittedCall(r.value, callee, args, Some(unwind))]
      ensures r.Ok? ==>
        var unwind := UnwindEdge(callee in noUnwindDeclarations, handler);
        blocks == RawCallBlocks(old(blocks), old(position), r.value, callee, args, unwind) &&
        position == RawCallPosition(old(blocks), old(position), unwind)
      ensures returnsByBlock == old(returnsByBlock) && returnSlot == old(returnSlot) && slotsPhi == old(slotsPhi)
      ensures arenaSlot == old(arenaSlot) && slotCount == old(slotCount) && localAllocs == old(localAllocs)
      ensures phiIncoming == old(phiIncoming)
      ensures forwardingForeignExceptionsTerminatedWith == old(forwardingForeignExceptionsTerminatedWith)
    {
      if callee in noUnwindDeclarations {
        var v := PlainCallHere(callee, args);
        return Ok(v);
      }
      var unwind := UnwindTarget(handler, CleanupLandingpad);
      if unwind.Err? {
        return Err(unwind.error);
      }
      var v := InvokeHere(callee, args, unwind.value);
      r := Ok(v);
    }

    /** A plain call at the insertion point, logged without an unwind edge. */
    method PlainCallHere(callee: Callee, args: seq<Value>) returns (v: Value)
      requires Valid() && position.At?
      modifies this
      ensures Valid() && (old(Disciplined()) ==> Disciplined())
      ensures v == Val(old(nextValue)) && nextValue == old(nextValue) + 1
      ensures blocks == Appended(old(blocks), old(Insertion()), Instr.Call(v, callee, args))
      ensures blocks == RawCallBlocks(old(blocks), old(position), v, callee, args, None)
      ensures position == At(old(Insertion()), false) && position == RawCallPosition(old(blocks), old(position), None)
      ensures calls == old(calls) + [EmittedCall(v, callee, args, None)]
      ensures returnsByBlock == old(returnsByBlock) && returnSlot == old(returnSlot) && slotsPhi == old(slotsPhi)
      ensures arenaSlot == old(arenaSlot) && slotCount == old(slotCount) && localAllocs == old(localAllocs)
      ensures phiIncoming == old(phiIncoming)
      ensures forwardingForeignExceptionsTerminatedWith == old(forwardingForeignExceptionsTerminatedWith)
    {
      v := NewValue();
      Emit(Instr.Call(v, callee, args));
      calls := calls + [EmittedCall(v, callee, args, None)];
    }

    /** An invoke at the insertion point unwinding to `unwind`; code continues in a new normal block. */
    method InvokeHere(callee: Callee, args: seq<Value>, unwind: BlockId) returns (v: Value)
      requires Valid() && position.At?
      modifies this
      ensures Valid() && (old(Disciplined()) ==> Disciplined())
      ensures v == Val(old(nextValue)) && nextValue == old(nextValue) + 1
      ensures blocks == Appended(old(blocks) + [[]], InsertionBlock(old(blocks) + [[]], old(position.block), old(position.afterTerminator)),
                                 Invoke(v, callee, args, old(|blocks|), unwind))
      ensures blocks == RawCallBlocks(old(blocks), old(position), v, callee, args, Some(unwind))
      ensures position == At(old(|blocks|), false) && position == RawCallPosition(old(blocks), old(position), Some(unwind))
      ensures calls == old(calls) + [EmittedCall(v, callee, args, Some(unwind))]
      ensures returnsByBlock == old(returnsByBlock) && returnSlot == old(returnSlot) && slotsPhi == old(slotsPhi)
      ensures arenaSlot == old(arenaSlot) && slotCount == old(slotCount) && localAllocs == old(localAllocs)
      ensures phiIncoming == old(phiIncoming)
      ensures forwardingForeignExceptionsTerminatedWith == old(forwardingForeignExceptionsTerminatedWith)
    {
      var success := BasicBlock();
      v := NewValue();
      Emit(Invoke(v, callee, args, success, unwind));
      calls := calls + [EmittedCall(v, callee, args, Some(unwind))];
      PositionAtEnd(success);
    }

    /**
     * A stack slot. An object slot is the next GC slot of the frame,
     * addressed in the locals_init block; any other type gets an alloca in
     * the prologue block. The position is preserved.
     */
    method Alloca(isObject: bool) returns (address: Value)
      requires Valid()
      requires isObject ==> slotsPhi.Some?
      modifies this
      ensures Valid() && (old(Disciplined()) ==> Disciplined())
      ensures address == Val(old(nextValue)) && nextValue == old(nextValue) + 1
      ensures isObject ==> (slotCount == old(slotCount) + 1 &&
        blocks == Appended(old(blocks),
                           InsertionBlock(old(blocks), LocalsInitBlock, EndsWithTerminator(old(blocks)[LocalsInitBlock])),
                           SlotAddress(address, old(slotsPhi).value, old(slotCount))))
      ensures !isObject ==> (slotCount == old(slotCount) &&
        blocks == Appended(old(blocks),
                           InsertionBlock(old(blocks), PrologueBlock, EndsWithTerminator(old(blocks)[PrologueBlock])),
                           Instr.Alloca(address)))
      ensures position == old(position)
      ensures returnsByBlock == old(returnsByBlock) && returnSlot == old(returnSlot) && slotsPhi == old(slotsPhi)
      ensures arenaSlot == old(arenaSlot) && localAllocs == old(localAllocs) && calls == old(calls)
      ensures phiIncoming == old(phiIncoming)
      ensures forwardingForeignExceptionsTerminatedWith == old(forwardingForeignExceptionsTerminatedWith)
    {
      address := NewValue();
      if isObject {
        EmitInFrameBlock(LocalsInitBlock, SlotAddress(address, slotsPhi.value, slotCount));
        slotCount := slotCount + 1;
      } else {
        EmitInFrameBlock(PrologueBlock, Instr.Alloca(address));
      }
    }

    /** Builds `i` at the end of the frame block `b` (the prologue or locals_init); the position is preserved. */
    method EmitInFrameBlock(b: BlockId, i: Instr)
      requires Valid() && (b == PrologueBlock || b == LocalsInitBlock) && !IsTerminator(i)
      modifies this
      ensures Valid() && (old(Disciplined()) ==> Disciplined())
      ensures blocks == Appended(old(blocks), InsertionBlock(old(blocks), b, EndsWithTerminator(old(blocks)[b])), i)
      ensures position == old(position) && nextValue == old(nextValue) && FrameStateUnchanged()
    {
      blocks := Appended(blocks, InsertionBlock(blocks, b, EndsWithTerminator(blocks[b])), i);
    }

    /**
     * A call. Unless it is verbatim, a callee returning an object gets one
     * more argument, the slot its result lives in: the arena slot (counted
     * as a local allocation), the caller's return slot, or a fresh anonymous
     * GC slot; any other lifetime is an error, and so is a slot not set up
     * yet.
     */
    method Call(callee: Callee, args: seq<Value>, slotType: SlotType, handler: ExceptionHandler, verbatim: bool)
      returns (r: Result<Value>)
      requires Valid() && position.At?
      modifies this
      ensures Valid() && (old(Disciplined()) ==> Disciplined())
      ensures var unwind := UnwindEdge(callee in noUnwindDeclarations, handler);
        if verbatim || callee !in objectReturning then
          slotCount == old(slotCount) && localAllocs == old(localAllocs) &&
          (r.Err? <==> callee !in noUnwindDeclarations && handler.NoHandler?) &&
          (r.Ok? ==> calls == old(calls) + [EmittedCall(r.value, callee, args, unwind)]) &&
          (r.Err? ==> r.error.NoExceptionHandler? && blocks == old(blocks) && nextValue == old(nextValue) && calls == old(calls)) &&
          (r.Ok? ==> r.value == Val(old(nextValue)) && nextValue == old(nextValue) + 1) &&
          (callee in noUnwindDeclarations ==>
            blocks == Appended(old(blocks), old(Insertion()), Instr.Call(r.value, callee, args)) &&
            position == At(old(Insertion()), false))
        else match slotType
          case Arena =>
            localAllocs == old(localAllocs) + 1 && slotCount == old(slotCount) &&
            (old(arenaSlot).None? ==> r == Err(Abort)) &&
            (old(arenaSlot).Some? ==>
              (r.Err? <==> callee !in noUnwindDeclarations && handler.NoHandler?) &&
              (r.Ok? ==> calls == old(calls) + [EmittedCall(r.value, callee, args + [old(arenaSlot).value], unwind)]))
          case Return =>
            localAllocs == old(localAllocs) && slotCount == old(slotCount) &&
            (old(returnSlot).None? ==> r == Err(Abort)) &&
            (old(returnSlot).Some? ==>
              (r.Err? <==> callee !in noUnwindDeclarations && handler.NoHandler?) &&
              (r.Ok? ==> calls == old(calls) + [EmittedCall(r.value, callee, args + [old(returnSlot).value], unwind)]))
          case Anonymous =>
            localAllocs == old(localAllocs) &&
            (old(slotsPhi).None? ==> r == Err(Abort) && slotCount == old(slotCount)) &&
            (old(slotsPhi).Some? ==>
              slotCount == old(slotCount) + 1 &&
              (r.Err? <==> callee !in noUnwindDeclarations && handler.NoHandler?) &&
              (r.Ok? ==> calls == old(calls) + [EmittedCall(r.value, callee, args + [Val(old(nextValue))], unwind)]))
          case _ =>
            r == Err(IncorrectSlotType) && blocks == old(blocks) && calls == old(calls) && nextValue == old(nextValue) &&
            localAllocs == old(localAllocs) && slotCount == old(slotCount)
      ensures var unwind := UnwindEdge(callee in noUnwindDeclarations, handler);
        if verbatim || callee !in objectReturning then
          r.Ok? ==>
            blocks == RawCallBlocks(old(blocks), old(position), r.value, callee, args, unwind) &&
            position == RawCallPosition(old(blocks), old(position), unwind)
        else match slotType
          case Arena =>
            (r.Err? ==> blocks == old(blocks)) &&
            (old(arenaSlot).Some? && r.Ok? ==>
              blocks == RawCallBlocks(old(blocks), old(position), r.value, callee, args + [old(arenaSlot).value], unwind) &&
              position == RawCallPosition(old(blocks), old(position), unwind))
          case Return =>
            (r.Err? ==> blocks == old(blocks)) &&
            (old(returnSlot).Some? && r.Ok? ==>
              blocks == RawCallBlocks(old(blocks), old(position), r.value, callee, args + [old(returnSlot).value], unwind) &&
              position == RawCallPosition(old(blocks), old(position), unwind))
          case Anonymous =>
            (old(slotsPhi).None? ==> blocks == old(blocks)) &&
            (old(slotsPhi).Some? ==>
              var slotted := WithSlotAddress(old(blocks), Val(old(nextValue)), old(slotsPhi).value, old(slotCount));
              (r.Err? ==> blocks == slotted) &&
              (r.Ok? ==>
                blocks == RawCallBlocks(slotted, old(position), r.value, callee, args + [Val(old(nextValue))], unwind) &&
                position == RawCallPosition(slotted, old(position), unwind)))
          case _ => blocks == old(blocks)
      ensures !verbatim && callee in objectReturning ==>
        var slotted := if slotType.Anonymous? && old(slotsPhi).Some? then 1 else 0;
        (r.Ok? ==> r.value == Val(old(nextValue) + slotted) && nextValue == old(nextValue) + slotted + 1) &&
        (r.Err? ==> calls == old(calls) && nextValue == old(nextValue) + slotted)
      ensures r.Err? ==> position == old(position)
      ensures returnsByBlock == old(returnsByBlock) && returnSlot == old(returnSlot) && slotsPhi == old(slotsPhi)
      ensures arenaSlot == old(arenaSlot) && phiIncoming == old(phiIncoming)
      ensures forwardingForeignExceptionsTerminatedWith == old(forwardingForeignExceptionsTerminatedWith)
    {
      if verbatim || callee !in objectReturning {
        r := CallRaw(callee, args, handler);
        return;
      }
      var slot := ResultSlotFor(slotType);
      if slot.Err? {
        return Err(slot.error);
      }
      var slotValue: Value;
      match slot.value {
        case ArenaSlot =>
          localAllocs := localAllocs + 1;
          if arenaSlot.None? {
            return Err(Abort);
          }
          slotValue := arenaSlot.value;
        case ReturnSlot =>
          if returnSlot.None? {
            return Err(Abort);
          }
          slotValue := returnSlot.value;
        case FreshAnonymousSlot =>
          if slotsPhi.None? {
            return Err(Abort);
          }
          slotValue := Alloca(true);
      }
      r := CallRaw(callee, args + [slotValue], handler);
    }

    /** A call of a runtime function that cannot throw: always a plain call. */
    method CallRuntime(fn: RuntimeFunction, args: seq<Value>) returns (v: Value)
      requires Valid() && position.At? && CalledWithoutHandler(fn)
      modifies this
      ensures Valid() && (old(Disciplined()) ==> Disciplined())
      ensures v == Val(old(nextValue)) && nextValue == old(nextValue) + 1
      ensures blocks == Appended(old(blocks), old(Insertion()), Instr.Call(v, Runtime(fn), args))
      ensures position == At(old(Insertion()), false)
      ensures calls == old(calls) + [EmittedCall(v, Runtime(fn), args, None)]
      ensures returnsByBlock == old(returnsByBlock) && returnSlot == old(returnSlot) && slotsPhi == old(slotsPhi)
      ensures arenaSlot == old(arenaSlot) && slotCount == old(slotCount) && localAllocs == old(localAllocs)
      ensures phiIncoming == old(phiIncoming)
      ensures forwardingForeignExceptionsTerminatedWith == old(forwardingForeignExceptionsTerminatedWith)
    {
      var r := Call(Runtime(fn), args, Unknown, NoHandler, false);
      v := r.value;
    }

    /** An unreachable instruction, preceded by a trap in debug builds. */
    method Unreachable()
      requires Valid() && position.At?
      modifies this
      ensures Valid() && (old(Disciplined()) ==> Disciplined())
      ensures !debug ==> blocks == Appended(old(blocks), old(Insertion()), Instr.Unreachable) && calls == old(calls)
      ensures debug ==>
        blocks == Appended(Appended(old(blocks), old(Insertion()), Instr.Call(Val(old(nextValue)), Runtime(LlvmTrap), [])),
                           old(Insertion()), Instr.Unreachable) &&
        calls == old(calls) + [EmittedCall(Val(old(nextValue)), Runtime(LlvmTrap), [], None)]
      ensures position == At(old(Insertion()), true)
      ensures nextValue == old(nextValue) + |TrapCode(debug, 0)|
      ensures FrameEvents(calls) == FrameEvents(old(calls))
      ensures !old(position.afterTerminator) ==>
        blocks == old(blocks[position.block := blocks[position.block] + TrapCode(debug, nextValue) + [Instr.Unreachable]])
      ensures returnsByBlock == old(returnsByBlock) && returnSlot == old(returnSlot) && slotsPhi == old(slotsPhi)
      ensures arenaSlot == old(arenaSlot) && slotCount == old(slotCount) && localAllocs == old(localAllocs)
      ensures phiIncoming == old(phiIncoming)
      ensures forwardingForeignExceptionsTerminatedWith == old(forwardingForeignExceptionsTerminatedWith)
    {
      ghost var b := old(position.block);
      if debug {
        var trap := CallRuntime(LlvmTrap, []);
        FrameEventsAppend(old(calls), EmittedCall(trap, Runtime(LlvmTrap), [], None));
        ghost var trapped := blocks;
        EmitTerminator(Instr.Unreachable);
        if !old(position.afterTerminator) {
          assert trapped == old(blocks)[b := old(blocks[b]) + TrapCode(debug, old(nextValue))];
          assert blocks[b] == old(blocks[b]) + TrapCode(debug, old(nextValue)) + [Instr.Unreachable];
        }
      } else {
        EmitTerminator(Instr.Unreachable);
        if !old(position.afterTerminator) {
          assert old(blocks[b]) + TrapCode(debug, old(nextValue)) == old(blocks[b]);
        }
      }
    }

    /** Builds a store: a plain store, or a call of the runtime barrier with the address first. */
    method EmitStore(kind: StoreKind, value: Value, address: Value)
      requires Valid() && position.At?
      requires kind.BarrierCall? ==> CalledWithoutHandler(kind.fn)
      modifies this
      ensures Valid() && (old(Disciplined()) ==> Disciplined())
      ensures blocks == Appended(old(blocks), old(Insertion()), StoreInstr(kind, value, address, Val(old(nextValue))))
      ensures position == At(old(Insertion()), false)
      ensures kind.PlainStore? ==> calls == old(calls) && nextValue == old(nextValue)
      ensures kind.BarrierCall? ==> (nextValue == old(nextValue) + 1 &&
        calls == old(calls) + [EmittedCall(Val(old(nextValue)), Runtime(kind.fn), [address, value], None)])
      ensures returnsByBlock == old(returnsByBlock) && returnSlot == old(returnSlot) && slotsPhi == old(slotsPhi)
      ensures arenaSlot == old(arenaSlot) && slotCount == old(slotCount) && localAllocs == old(localAllocs)
      ensures phiIncoming == old(phiIncoming)
      ensures forwardingForeignExceptionsTerminatedWith == old(forwardingForeignExceptionsTerminatedWith)
    {
      match kind {
        case PlainStore => Emit(Store(value, address));
        case BarrierCall(fn) =>
          var _ := CallRuntime(fn, [address, value]);
      }
    }

    /** A reference store to a stack slot or a heap field. */
    method UpdateRef(value: Value, address: Value, onStack: bool)
      requires Valid() && position.At?
      modifies this
      ensures Valid() && (old(Disciplined()) ==> Disciplined())
      ensures blocks == Appended(old(blocks), old(Insertion()),
        StoreInstr(RefStore(if onStack then StackLocation else HeapLocation, memoryModel), value, address, Val(old(nextValue))))
      ensures position == At(old(Insertion()), false)
      ensures var kind := RefStore(if onStack then StackLocation else HeapLocation, memoryModel);
        if kind.PlainStore? then nextValue == old(nextValue) && calls == old(calls)
        else (nextValue == old(nextValue) + 1 &&
          calls == old(calls) + [EmittedCall(Val(old(nextValue)), Runtime(kind.fn), [address, value], None)])
      ensures returnsByBlock == old(returnsByBlock) && returnSlot == old(returnSlot) && slotsPhi == old(slotsPhi)
      ensures arenaSlot == old(arenaSlot) && slotCount == old(slotCount) && localAllocs == old(localAllocs)
      ensures phiIncoming == old(phiIncoming)
      ensures forwardingForeignExceptionsTerminatedWith == old(forwardingForeignExceptionsTerminatedWith)
    {
      EmitStore(RefStore(if onStack then StackLocation else HeapLocation, memoryModel), value, address);
    }

    method StoreHeapRef(value: Value, address: Value)
      requires Valid() && position.At?
      modifies this
      ensures Valid() && (old(Disciplined()) ==> Disciplined())
      ensures blocks == Appended(old(blocks), old(Insertion()),
        Instr.Call(Val(old(nextValue)), Runtime(UpdateHeapRef), [address, value]))
      ensures position == At(old(Insertion()), false)
      ensures nextValue == old(nextValue) + 1
      ensures calls == old(calls) + [EmittedCall(Val(old(nextValue)), Runtime(UpdateHeapRef), [address, value], None)]
      ensures returnsByBlock == old(returnsByBlock) && returnSlot == old(returnSlot) && slotsPhi == old(slotsPhi)
      ensures arenaSlot == old(arenaSlot) && slotCount == old(slotCount) && localAllocs == old(localAllocs)
      ensures phiIncoming == old(phiIncoming)
      ensures forwardingForeignExceptionsTerminatedWith == old(forwardingForeignExceptionsTerminatedWith)
    {
      UpdateRef(value, address, false);
    }

    method StoreStackRef(value: Value, address: Value)
      requires Valid() && position.At?
      modifies this
      ensures Valid() && (old(Disciplined()) ==> Disciplined())
      ensures memoryModel == Strict ==> blocks == Appended(old(blocks), old(Insertion()), Store(value, address))
      ensures memoryModel == Relaxed ==> blocks == Appended(old(blocks), old(Insertion()),
        Instr.Call(Val(old(nextValue)), Runtime(UpdateStackRef), [address, value]))
      ensures position == At(old(Insertion()), false)
      ensures memoryModel == Strict ==> nextValue == old(nextValue) && calls == old(calls)
      ensures memoryModel == Relaxed ==> (nextValue == old(nextValue) + 1 &&
        calls == old(calls) + [EmittedCall(Val(old(nextValue)), Runtime(UpdateStackRef), [address, value], None)])
      ensures returnsByBlock == old(returnsByBlock) && returnSlot == old(returnSlot) && slotsPhi == old(slotsPhi)
      ensures arenaSlot == old(arenaSlot) && slotCount == old(slotCount) && localAllocs == old(localAllocs)
      ensures phiIncoming == old(phiIncoming)
      ensures forwardingForeignExceptionsTerminatedWith == old(forwardingForeignExceptionsTerminatedWith)
    {
      UpdateRef(value, address, true);
    }

    /** Any store: references by their location's policy, scalars plainly. */
    method StoreAny(value: Value, isObjectRef: bool, address: Value, onStack: bool)
      requires Valid() && position.At?
      modifies this
      ensures Valid() && (old(Disciplined()) ==> Disciplined())
      ensures blocks == Appended(old(blocks), old(Insertion()),
        StoreInstr(StoreAnyKind(isObjectRef, onStack, memoryModel), value, address, Val(old(nextValue))))
      ensures position == At(old(Insertion()), false)
      ensures var kind := StoreAnyKind(isObjectRef, onStack, memoryModel);
        if kind.PlainStore? then nextValue == old(nextValue) && calls == old(calls)
        else (nextValue == old(nextValue) + 1 &&
          calls == old(calls) + [EmittedCall(Val(old(nextValue)), Runtime(kind.fn), [address, value], None)])
      ensures returnsByBlock == old(returnsByBlock) && returnSlot == old(returnSlot) && slotsPhi == old(slotsPhi)
      ensures arenaSlot == old(arenaSlot) && slotCount == old(slotCount) && localAllocs == old(localAllocs)
      ensures phiIncoming == old(phiIncoming)
      ensures forwardingForeignExceptionsTerminatedWith == old(forwardingForeignExceptionsTerminatedWith)
    {
      if isObjectRef {
        if onStack {
          StoreStackRef(value, address);
        } else {
          StoreHeapRef(value, address);
        }
      } else {
        EmitStore(PlainStore, value, address);
      }
    }

    /** Stores a function's result into the caller's return slot. */
    method UpdateReturnRef(value: Value, address: Value)
      requires Valid() && position.At?
      modifies this
      ensures Valid() && (old(Disciplined()) ==> Disciplined())
      ensures blocks == Appended(old(blocks), old(Insertion()),
        StoreInstr(RefStore(ReturnLocation, memoryModel), value, address, Val(old(nextValue))))
      ensures position == At(old(Insertion()), false)
      ensures var kind := RefStore(ReturnLocation, memoryModel);
        if kind.PlainStore? then nextValue == old(nextValue) && calls == old(calls)
        else (nextValue == old(nextValue) + 1 &&
          calls == old(calls) + [EmittedCall(Val(old(nextValue)), Runtime(kind.fn), [address, value], None)])
      ensures FrameEvents(calls) == FrameEvents(old(calls))
      ensures returnsByBlock == old(returnsByBlock) && returnSlot == old(returnSlot) && slotsPhi == old(slotsPhi)
      ensures arenaSlot == old(arenaSlot) && slotCount == old(slotCount) && localAllocs == old(localAllocs)
      ensures phiIncoming == old(phiIncoming)
      ensures forwardingForeignExceptionsTerminatedWith == old(forwardingForeignExceptionsTerminatedWith)
    {
      EmitStore(RefStore(ReturnLocation, memoryModel), value, address);
      var kind := RefStore(ReturnLocation, memoryModel);
      if kind.BarrierCall? {
        FrameEventsAppend(old(calls), EmittedCall(Val(old(nextValue)), Runtime(kind.fn), [address, value], None));
      }
    }

    /** Freezes the subgraph of an object reference; other values are left alone. */
    method Freeze(value: Value, isObjectRef: bool, handler: ExceptionHandler) returns (r: Outcome)
      requires Valid() && position.At?
      modifies this
      ensures Valid() && (old(Disciplined()) ==> Disciplined())
      ensures !isObjectRef ==> r.Pass? && blocks == old(blocks) && calls == old(calls) && position == old(position) &&
                               nextValue == old(nextValue)
      ensures isObjectRef ==>
        (r.Fail? <==> Runtime(FreezeSubgraph) !in noUnwindDeclarations && handler.NoHandler?) &&
        (r.Pass? ==> calls == old(calls) + [EmittedCall(Val(old(nextValue)), Runtime(FreezeSubgraph), [value],
                                                        UnwindEdge(Runtime(FreezeSubgraph) in noUnwindDeclarations, handler))])
      ensures returnsByBlock == old(returnsByBlock) && slotCount == old(slotCount) && localAllocs == old(localAllocs)
      ensures isObjectRef ==>
        var unwind := UnwindEdge(Runtime(FreezeSubgraph) in noUnwindDeclarations, handler);
        (r.Pass? ==>
          nextValue == old(nextValue) + 1 &&
          blocks == RawCallBlocks(old(blocks), old(position), Val(old(nextValue)), Runtime(FreezeSubgraph), [value], unwind) &&
          position == RawCallPosition(old(blocks), old(position), unwind)) &&
        (r.Fail? ==> r.error.NoExceptionHandler? && blocks == old(blocks) && position == old(position) &&
                     nextValue == old(nextValue) && calls == old(calls))
      ensures returnSlot == old(returnSlot) && slotsPhi == old(slotsPhi) && arenaSlot == old(arenaSlot)
      ensures phiIncoming == old(phiIncoming)
      ensures forwardingForeignExceptionsTerminatedWith == old(forwardingForeignExceptionsTerminatedWith)
    {
      r := Pass;
      if isObjectRef {
        var c := Call(Runtime(FreezeSubgraph), [value], Unknown, handler, false);
        if c.Err? {
          r := Fail(c.error);
        }
      }
    }

    /** Under the strict memory model, checks that code runs on the main thread. */
    method CheckMainThread(handler: ExceptionHandler) returns (r: Outcome)
      requires Valid() && position.At?
      modifies this
      ensures Valid() && (old(Disciplined()) ==> Disciplined())
      ensures memoryModel == Relaxed ==> r.Pass? && blocks == old(blocks) && calls == old(calls) &&
                                         position == old(position) && nextValue == old(nextValue)
      ensures memoryModel == Strict ==>
        (r.Fail? <==> Runtime(RuntimeFunction.CheckMainThread) !in noUnwindDeclarations && handler.NoHandler?) &&
        (r.Pass? ==> calls == old(calls) + [EmittedCall(Val(old(nextValue)), Runtime(RuntimeFunction.CheckMainThread), [],
                                                        UnwindEdge(Runtime(RuntimeFunction.CheckMainThread) in noUnwindDeclarations, handler))])
      ensures returnsByBlock == old(returnsByBlock) && slotCount == old(slotCount) && localAllocs == old(localAllocs)
      ensures memoryModel == Strict ==>
        var unwind := UnwindEdge(Runtime(RuntimeFunction.CheckMainThread) in noUnwindDeclarations, handler);
        (r.Pass? ==>
          nextValue == old(nextValue) + 1 &&
          blocks == RawCallBlocks(old(blocks), old(position), Val(old(nextValue)), Runtime(RuntimeFunction.CheckMainThread), [], unwind) &&
          position == RawCallPosition(old(blocks), old(position), unwind)) &&
        (r.Fail? ==> r.error.NoExceptionHandler? && blocks == old(blocks) && position == old(position) &&
                     nextValue == old(nextValue) && calls == old(calls))
      ensures returnSlot == old(returnSlot) && slotsPhi == old(slotsPhi) && arenaSlot == old(arenaSlot)
      ensures phiIncoming == old(phiIncoming)
      ensures forwardingForeignExceptionsTerminatedWith == old(forwardingForeignExceptionsTerminatedWith)
    {
      r := Pass;
      if memoryModel == Strict {
        var c := Call(Runtime(RuntimeFunction.CheckMainThread), [], Unknown, handler, false);
        if c.Err? {
          r := Fail(c.error);
        }
      }
    }

    /**
     * Loads from `address`; a loaded object reference that lives in a
     * variable is also stored into a fresh GC slot of its own.
     */
    method LoadSlot(address: Value, isObjectRef: bool, isVar: bool) returns (value: Value)
      requires Valid() && position.At?
      requires isObjectRef && isVar ==> slotsPhi.Some?
      modifies this
      ensures Valid() && (old(Disciplined()) ==> Disciplined())
      ensures value == Val(old(nextValue))
      ensures position == At(old(Insertion()), false)
      ensures !(isObjectRef && isVar) ==>
        blocks == Appended(old(blocks), old(Insertion()), Op(value, Load, [address])) &&
        slotCount == old(slotCount) && nextValue == old(nextValue) + 1 && calls == old(calls)
      ensures isObjectRef && isVar ==>
        slotCount == old(slotCount) + 1 &&
        nextValue == old(nextValue) + (if memoryModel == Strict then 2 else 3) &&
        calls == old(calls) + (if memoryModel == Strict then [] else
          [EmittedCall(Val(old(nextValue) + 2), Runtime(UpdateStackRef), [Val(old(nextValue) + 1), value], None)])
      ensures isObjectRef && isVar && old(SlotsOpen()) ==>
        |blocks| == |Appended(old(blocks), old(Insertion()), Op(value, Load, [address]))| &&
        !EndsWithTerminator(blocks[LocalsInitBlock]) &&
        forall k :: 0 <= k < old(|blocks|) && k != old(Insertion()) && k != LocalsInitBlock ==> blocks[k] == old(blocks[k])
      ensures isObjectRef && isVar && old(SlotsOpen()) ==>
        old(Insertion()) < |blocks| &&
        blocks[old(Insertion())] == Prior(old(blocks), old(Insertion())) +
          [Op(value, Load, [address]),
           StoreInstr(RefStore(StackLocation, memoryModel), value, Val(old(nextValue) + 1), Val(old(nextValue) + 2))]
      ensures isObjectRef && isVar && old(SlotsOpen()) ==>
        blocks[LocalsInitBlock] == old(blocks[LocalsInitBlock]) + [SlotAddress(Val(old(nextValue) + 1), old(slotsPhi).value, old(slotCount))]
      ensures returnsByBlock == old(returnsByBlock) && returnSlot == old(returnSlot) && slotsPhi == old(slotsPhi)
      ensures arenaSlot == old(arenaSlot) && localAllocs == old(localAllocs)
      ensures phiIncoming == old(phiIncoming)
      ensures forwardingForeignExceptionsTerminatedWith == old(forwardingForeignExceptionsTerminatedWith)
    {
      value := NewValue();
      Emit(Op(value, Load, [address]));
      if isObjectRef && isVar {
        var _ := RootInFreshSlot(value);
      }
    }

    /** Allocates a GC slot for an object reference and stores the reference into it. */
    method RootInFreshSlot(value: Value) returns (slot: Value)
      requires Valid() && position.At? && !position.afterTerminator && slotsPhi.Some?
      modifies this
      ensures Valid() && (old(Disciplined()) ==> Disciplined())
      ensures slot == Val(old(nextValue)) && slotCount == old(slotCount) + 1
      ensures position == old(position)
      ensures nextValue == old(nextValue) + (if memoryModel == Strict then 1 else 2)
      ensures calls == old(calls) + (if memoryModel == Strict then [] else
          [EmittedCall(Val(old(nextValue) + 1), Runtime(UpdateStackRef), [slot, value], None)])
      ensures old(SlotsOpen()) ==>
        blocks[position.block] ==
          old(blocks[position.block]) + [StoreInstr(RefStore(StackLocation, memoryModel), value, slot, Val(old(nextValue) + 1))]
      ensures old(SlotsOpen()) ==>
        |blocks| == old(|blocks|) && !EndsWithTerminator(blocks[LocalsInitBlock]) &&
        forall k :: 0 <= k < |blocks| && k != position.block && k != LocalsInitBlock ==> blocks[k] == old(blocks[k])
      ensures old(SlotsOpen()) ==>
        blocks[LocalsInitBlock] == old(blocks[LocalsInitBlock]) + [SlotAddress(slot, old(slotsPhi).value, old(slotCount))]
      ensures returnsByBlock == old(returnsByBlock) && returnSlot == old(returnSlot) && slotsPhi == old(slotsPhi)
      ensures arenaSlot == old(arenaSlot) && localAllocs == old(localAllocs)
      ensures phiIncoming == old(phiIncoming)
      ensures forwardingForeignExceptionsTerminatedWith == old(forwardingForeignExceptionsTerminatedWith)
    {
      slot := Alloca(true);
      assert old(SlotsOpen()) ==> blocks[position.block] == old(blocks[position.block]);
      StoreStackRef(value, slot);
    }

    /** Calls std::terminate, then spins in a block that branches to itself. */
    method Terminate()
      requires Valid() && position.At?
      modifies this
      ensures Valid() && (old(Disciplined()) ==> Disciplined())
      ensures var b := old(Insertion());
        var loop := if b == old(|blocks|) then b + 1 else old(|blocks|);
        |blocks| == loop + 1 &&
        blocks[b] == Prior(old(blocks), b) + [Instr.Call(Val(old(nextValue)), Runtime(CxxStdTerminate), []), Instr.Br(loop)] &&
        blocks[loop] == [Instr.Br(loop)] &&
        (forall k :: 0 <= k < old(|blocks|) && k != b ==> blocks[k] == old(blocks[k])) &&
        position == At(b, true)
      ensures calls == old(calls) + [EmittedCall(Val(old(nextValue)), Runtime(CxxStdTerminate), [], None)]
      ensures nextValue == old(nextValue) + 1
      ensures returnsByBlock == old(returnsByBlock) && returnSlot == old(returnSlot) && slotsPhi == old(slotsPhi)
      ensures arenaSlot == old(arenaSlot) && slotCount == old(slotCount) && localAllocs == old(localAllocs)
      ensures phiIncoming == old(phiIncoming)
      ensures forwardingForeignExceptionsTerminatedWith == old(forwardingForeignExceptionsTerminatedWith)
    {
      var _ := CallRuntime(CxxStdTerminate, []);
      var _ := LoopForever();
    }

    /** Ends the current block with a branch to a new block that branches to itself. */
    method LoopForever() returns (loop: BlockId)
      requires Valid() && position.At? && !position.afterTerminator
      modifies this
      ensures Valid() && (old(Disciplined()) ==> Disciplined())
      ensures position == old(position).(afterTerminator := true)
      ensures loop == old(|blocks|) && |blocks| == loop + 1
      ensures blocks[position.block] == old(blocks[position.block]) + [Instr.Br(loop)] && blocks[loop] == [Instr.Br(loop)]
      ensures forall k :: 0 <= k < old(|blocks|) && k != position.block ==> blocks[k] == old(blocks[k])
      ensures nextValue == old(nextValue) && FrameStateUnchanged()
    {
      loop := BasicBlock();
      Br(loop);
      var saved := position;
      position := Unpositioned;
      PositionAtEnd(loop);
      Br(loop);
      position := saved;
    }

    /**
     * Takes the Kotlin exception out of a landing pad's C++ exception
     * record. The exception is stored into a GC slot before the C++ catch
     * ends, so ending the catch cannot free it.
     */
    method ExtractKotlinException(landingpad: Value) returns (exception: Value)
      requires Valid() && position.At? && slotsPhi.Some?
      modifies this
      ensures Valid() && (old(Disciplined()) ==> Disciplined())
      ensures exception == Val(old(nextValue) + 3)
      ensures slotCount == old(slotCount) + 1
      ensures var n := old(nextValue);
        var endCatch := if memoryModel == Strict then n + 5 else n + 6;
        nextValue == endCatch + 1 &&
        calls == old(calls) +
          [EmittedCall(Val(n + 1), Runtime(CxaBeginCatch), [Val(n)], None)] +
          (if memoryModel == Strict then [] else
            [EmittedCall(Val(n + 5), Runtime(UpdateStackRef), [Val(n + 4), exception], None)]) +
          [EmittedCall(Val(endCatch), Runtime(CxaEndCatch), [], None)]
      ensures old(SlotsOpen()) ==>
        |blocks| == old(|blocks|) + (if old(Insertion()) == old(|blocks|) then 1 else 0) &&
        !EndsWithTerminator(blocks[LocalsInitBlock]) &&
        forall k :: 0 <= k < old(|blocks|) && k != old(Insertion()) && k != LocalsInitBlock ==> blocks[k] == old(blocks[k])
      ensures old(SlotsOpen()) ==>
        var b := old(Insertion());
        var n := old(nextValue);
        var endCatch := if memoryModel == Strict then n + 5 else n + 6;
        b < |blocks| && position == At(b, false) &&
        blocks[b] == Prior(old(blocks), b) + ExtractionCode(landingpad, n, memoryModel)
      ensures old(SlotsOpen()) ==>
        blocks[LocalsInitBlock] == old(blocks[LocalsInitBlock]) + [SlotAddress(Val(old(nextValue) + 4), old(slotsPhi).value, old(slotCount))]
      ensures returnsByBlock == old(returnsByBlock) && returnSlot == old(returnSlot) && slotsPhi == old(slotsPhi)
      ensures arenaSlot == old(arenaSlot) && localAllocs == old(localAllocs)
      ensures phiIncoming == old(phiIncoming)
      ensures forwardingForeignExceptionsTerminatedWith == old(forwardingForeignExceptionsTerminatedWith)
    {
      ghost var b, n, before := Insertion(), nextValue, blocks;
      var pointer := BeginCatch(landingpad);
      ghost var begun := blocks;
      exception := LoadSlot(pointer, true, true);
      ghost var loaded := blocks;
      var _ := CallRuntime(CxaEndCatch, []);
      if old(SlotsOpen()) {
        ExtractionBuilt(before, begun, loaded, blocks, b, landingpad, n, memoryModel);
      }
    }

    /**
     * A landing pad that catches every exception, from which the Kotlin
     * exception is extracted into a GC slot.
     */
    method CatchKotlinException() returns (exception: Value)
      requires Valid() && position.At? && !position.afterTerminator && SlotsOpen()
      modifies this
      ensures Valid() && (old(Disciplined()) ==> Disciplined()) && position == old(position)
      ensures exception == Val(old(nextValue) + 4) && slotCount == old(slotCount) + 1
      ensures nextValue == old(nextValue) + (if memoryModel == Strict then 7 else 8)
      ensures FrameEvents(calls) == FrameEvents(old(calls))
      ensures |blocks| == old(|blocks|) && !EndsWithTerminator(blocks[LocalsInitBlock])
      ensures forall k :: 0 <= k < |blocks| && k != position.block && k != LocalsInitBlock ==> blocks[k] == old(blocks[k])
      ensures blocks[position.block] == old(blocks[position.block]) + KotlinCatchCode(old(nextValue), memoryModel)
      ensures blocks[LocalsInitBlock] == old(blocks[LocalsInitBlock]) + [SlotAddress(Val(old(nextValue) + 5), old(slotsPhi).value, old(slotCount))]
      ensures returnsByBlock == old(returnsByBlock) && returnSlot == old(returnSlot) && slotsPhi == old(slotsPhi)
      ensures arenaSlot == old(arenaSlot) && localAllocs == old(localAllocs)
      ensures phiIncoming == old(phiIncoming)
      ensures forwardingForeignExceptionsTerminatedWith == old(forwardingForeignExceptionsTerminatedWith)
    {
      ghost var b := position.block;
      var landingpad := LandingPadHere([CatchAll], false);
      ghost var before := calls;
      ghost var padded := blocks[b];
      assert Insertion() == b && Prior(blocks, b) == padded;
      exception := ExtractKotlinException(landingpad);
      CatchLeavesFrameEvents(before, old(nextValue) + 1, memoryModel);
      assert blocks[b] == old(blocks[b]) + KotlinCatchCode(old(nextValue), memoryModel);
    }

    /**
     * A handler whose landing pad, in a new block, catches the Kotlin
     * exception; the code the caller builds after the catch is not part of
     * this model. The position is preserved.
     */
    method KotlinExceptionHandler() returns (handler: ExceptionHandler, exception: Value)
      requires Valid() && position.At? && slotsPhi.Some? && !EndsWithTerminator(blocks[LocalsInitBlock])
      modifies this
      ensures Valid() && position == old(position) && (old(Disciplined()) ==> Disciplined())
      ensures handler == Local(old(|blocks|))
      ensures exception == Val(old(nextValue) + 4) && slotCount == old(slotCount) + 1
      ensures nextValue == old(nextValue) + (if memoryModel == Strict then 7 else 8)
      ensures FrameEvents(calls) == FrameEvents(old(calls))
      ensures
        |blocks| == old(|blocks|) + 1 && blocks[old(|blocks|)] == KotlinCatchCode(old(nextValue), memoryModel) &&
        forall k :: 0 <= k < old(|blocks|) && k != LocalsInitBlock ==> blocks[k] == old(blocks[k])
      ensures blocks[LocalsInitBlock] == old(blocks[LocalsInitBlock]) + [SlotAddress(Val(old(nextValue) + 5), old(slotsPhi).value, old(slotCount))]
      ensures returnsByBlock == old(returnsByBlock) && returnSlot == old(returnSlot) && slotsPhi == old(slotsPhi)
      ensures arenaSlot == old(arenaSlot) && localAllocs == old(localAllocs)
      ensures phiIncoming == old(phiIncoming)
      ensures forwardingForeignExceptionsTerminatedWith == old(forwardingForeignExceptionsTerminatedWith)
    {
      var lp := BasicBlock();
      var saved := position;
      position := Unpositioned;
      exception := CatchKotlinExceptionInto(lp);
      position := saved;
      handler := Local(lp);
    }

    /** Builds the Kotlin exception's landing pad into the empty body block `lp`, from no position back to none. */
    method CatchKotlinExceptionInto(lp: BlockId) returns (exception: Value)
      requires Valid() && position.Unpositioned? && FrameBlockCount <= lp < |blocks| && blocks[lp] == []
      requires slotsPhi.Some? && !EndsWithTerminator(blocks[LocalsInitBlock])
      modifies this
      ensures Valid() && position.Unpositioned? && (old(Disciplined()) ==> Disciplined())
      ensures exception == Val(old(nextValue) + 4) && slotCount == old(slotCount) + 1
      ensures nextValue == old(nextValue) + (if memoryModel == Strict then 7 else 8)
      ensures FrameEvents(calls) == FrameEvents(old(calls))
      ensures
        |blocks| == old(|blocks|) && blocks[lp] == KotlinCatchCode(old(nextValue), memoryModel) &&
        forall k :: 0 <= k < |blocks| && k != lp && k != LocalsInitBlock ==> blocks[k] == old(blocks[k])
      ensures blocks[LocalsInitBlock] == old(blocks[LocalsInitBlock]) + [SlotAddress(Val(old(nextValue) + 5), old(slotsPhi).value, old(slotCount))]
      ensures returnsByBlock == old(returnsByBlock) && returnSlot == old(returnSlot) && slotsPhi == old(slotsPhi)
      ensures arenaSlot == old(arenaSlot) && localAllocs == old(localAllocs)
      ensures phiIncoming == old(phiIncoming)
      ensures forwardingForeignExceptionsTerminatedWith == old(forwardingForeignExceptionsTerminatedWith)
    {
      PositionAtEnd(lp);
      exception := CatchKotlinException();
      assert [] + KotlinCatchCode(old(nextValue), memoryModel) == KotlinCatchCode(old(nextValue), memoryModel);
      position := Unpositioned;
    }

    /** Begins the C++ catch of a landing pad's exception record; yields the pointer to the Kotlin exception. */
    method BeginCatch(landingpad: Value) returns (pointer: Value)
      requires Valid() && position.At?
      modifies this
      ensures Valid() && (old(Disciplined()) ==> Disciplined())
      ensures var n := old(nextValue);
        pointer == Val(n + 2) && nextValue == n + 3 &&
        calls == old(calls) + [EmittedCall(Val(n + 1), Runtime(CxaBeginCatch), [Val(n)], None)] &&
        blocks == Appended(Appended(Appended(old(blocks), old(Insertion()), Op(Val(n), ExtractValue(0), [landingpad])),
                                    old(Insertion()), Instr.Call(Val(n + 1), Runtime(CxaBeginCatch), [Val(n)])),
                           old(Insertion()), Op(pointer, Bitcast, [Val(n + 1)])) &&
        position == At(old(Insertion()), false)
      ensures returnsByBlock == old(returnsByBlock) && returnSlot == old(returnSlot) && slotsPhi == old(slotsPhi)
      ensures arenaSlot == old(arenaSlot) && slotCount == old(slotCount) && localAllocs == old(localAllocs)
      ensures phiIncoming == old(phiIncoming)
      ensures forwardingForeignExceptionsTerminatedWith == old(forwardingForeignExceptionsTerminatedWith)
    {
      var record := NewValue();
      Emit(Op(record, ExtractValue(0), [landingpad]));
      var raw := CallRuntime(CxaBeginCatch, [record]);
      pointer := NewValue();
      Emit(Op(pointer, Bitcast, [raw]));
    }

    /**
     * Builds into the empty block `lp` a landing pad that catches Kotlin
     * exceptions and everything else, and branches on whether the caught
     * exception is a Kotlin one. Returns the two new, empty targets and the landing pad.
     */
    method SelectKotlinExceptions(lp: BlockId) returns (fatal: BlockId, forward: BlockId, landingpad: Value)
      requires Valid() && lp < |blocks| && blocks[lp] == [] && position == At(lp, false)
      modifies this
      ensures Valid()
      ensures fatal == old(|blocks|) && forward == fatal + 1 && |blocks| == forward + 1
      ensures forall k :: 0 <= k < old(|blocks|) && k != lp ==> blocks[k] == old(blocks[k])
      ensures blocks[fatal] == [] && blocks[forward] == []
      ensures var n := old(nextValue);
        landingpad == Val(n) && nextValue == n + 4 &&
        blocks[lp] == [LandingPad(Val(n), [KotlinExceptionRtti, CatchAll], false),
                       Op(Val(n + 1), ExtractValue(1), [Val(n)]),
                       Instr.Call(Val(n + 2), Runtime(EhTypeidFor), [KotlinExceptionRttiGlobal]),
                       Op(Val(n + 3), IcmpEq, [Val(n + 1), Val(n + 2)]),
                       Instr.CondBr(Val(n + 3), forward, fatal)]
      ensures position == At(lp, true)
      ensures returnsByBlock == old(returnsByBlock) && returnSlot == old(returnSlot) && slotsPhi == old(slotsPhi)
      ensures arenaSlot == old(arenaSlot) && slotCount == old(slotCount) && localAllocs == old(localAllocs)
      ensures phiIncoming == old(phiIncoming)
      ensures forwardingForeignExceptionsTerminatedWith == old(forwardingForeignExceptionsTerminatedWith)
    {
      landingpad := NewValue();
      Emit(LandingPad(landingpad, [KotlinExceptionRtti, CatchAll], false));
      fatal := BasicBlock();
      forward := BasicBlock();
      BranchOnKotlinException(lp, landingpad, forward, fatal);
    }

    /** At the open end of `lp`: compares the landing pad's selector with the Kotlin exception type id. */
    method BranchOnKotlinException(lp: BlockId, landingpad: Value, forward: BlockId, fatal: BlockId)
      requires Valid() && lp < |blocks| && position == At(lp, false)
      modifies this
      ensures Valid()
      ensures |blocks| == old(|blocks|)
      ensures forall k :: 0 <= k < |blocks| && k != lp ==> blocks[k] == old(blocks[k])
      ensures var n := old(nextValue);
        nextValue == n + 3 &&
        blocks[lp] == old(blocks[lp]) +
          [Op(Val(n), ExtractValue(1), [landingpad]),
           Instr.Call(Val(n + 1), Runtime(EhTypeidFor), [KotlinExceptionRttiGlobal]),
           Op(Val(n + 2), IcmpEq, [Val(n), Val(n + 1)]),
           Instr.CondBr(Val(n + 2), forward, fatal)]
      ensures position == At(lp, true)
      ensures returnsByBlock == old(returnsByBlock) && returnSlot == old(returnSlot) && slotsPhi == old(slotsPhi)
      ensures arenaSlot == old(arenaSlot) && slotCount == old(slotCount) && localAllocs == old(localAllocs)
      ensures phiIncoming == old(phiIncoming)
      ensures forwardingForeignExceptionsTerminatedWith == old(forwardingForeignExceptionsTerminatedWith)
    {
      var selector := NewValue();
      Emit(Op(selector, ExtractValue(1), [landingpad]));
      var typeId := CallRuntime(EhTypeidFor, [KotlinExceptionRttiGlobal]);
      var isKotlinException := NewValue();
      Emit(Op(isKotlinException, IcmpEq, [selector, typeId]));
      CondBr(isKotlinException, forward, fatal);
    }

    /** In the empty block `forward`: takes the Kotlin exception out of the landing pad and rethrows it. */
    method ForwardKotlinException(forward: BlockId, landingpad: Value)
      requires Valid() && forward < |blocks| && blocks[forward] == [] && forward != LocalsInitBlock
      requires slotsPhi.Some? && !EndsWithTerminator(blocks[LocalsInitBlock])
      modifies this
      ensures Valid()
      ensures |blocks| == old(|blocks|) && !EndsWithTerminator(blocks[LocalsInitBlock])
      ensures var n := old(nextValue);
        var endCatch := if memoryModel == Strict then n + 5 else n + 6;
        blocks[forward] ==
          [Op(Val(n), ExtractValue(0), [landingpad]),
           Instr.Call(Val(n + 1), Runtime(CxaBeginCatch), [Val(n)]),
           Op(Val(n + 2), Bitcast, [Val(n + 1)]),
           Op(Val(n + 3), Load, [Val(n + 2)]),
           StoreInstr(RefStore(StackLocation, memoryModel), Val(n + 3), Val(n + 4), Val(n + 5)),
           Instr.Call(Val(endCatch), Runtime(CxaEndCatch), []),
           Throw(Val(n + 3))] &&
        nextValue == endCatch + 1
      ensures forall k :: 0 <= k < |blocks| && k != forward && k != LocalsInitBlock ==> blocks[k] == old(blocks[k])
      ensures slotCount == old(slotCount) + 1 && position == old(position)
      ensures blocks[LocalsInitBlock] == old(blocks[LocalsInitBlock]) + [SlotAddress(Val(old(nextValue) + 4), old(slotsPhi).value, old(slotCount))]
      ensures returnsByBlock == old(returnsByBlock) && returnSlot == old(returnSlot) && slotsPhi == old(slotsPhi)
      ensures arenaSlot == old(arenaSlot) && localAllocs == old(localAllocs)
      ensures phiIncoming == old(phiIncoming)
      ensures forwardingForeignExceptionsTerminatedWith == old(forwardingForeignExceptionsTerminatedWith)
    {
      var saved := position;
      position := Unpositioned;
      PositionAtEnd(forward);
      var exception := ExtractKotlinException(landingpad);
      EmitTerminator(Throw(exception));
      position := saved;
    }

    /** In the empty block `fatal`: begins the C++ catch of a foreign exception and terminates. */
    method FatalForeignException(fatal: BlockId, landingpad: Value)
      requires Valid() && fatal < |blocks| && blocks[fatal] == []
      modifies this
      ensures Valid()
      ensures var n := old(nextValue);
        var loop := old(|blocks|);
        |blocks| == loop + 1 &&
        blocks[fatal] ==
          [Op(Val(n), ExtractValue(0), [landingpad]),
           Instr.Call(Val(n + 1), Runtime(CxaBeginCatch), [Val(n)]),
           Instr.Call(Val(n + 2), Runtime(CxxStdTerminate), []),
           Instr.Br(loop)] &&
        blocks[loop] == [Instr.Br(loop)] &&
        nextValue == n + 3
      ensures forall k :: 0 <= k < old(|blocks|) && k != fatal ==> blocks[k] == old(blocks[k])
      ensures position == old(position)
      ensures returnsByBlock == old(returnsByBlock) && returnSlot == old(returnSlot) && slotsPhi == old(slotsPhi)
      ensures arenaSlot == old(arenaSlot) && slotCount == old(slotCount) && localAllocs == old(localAllocs)
      ensures phiIncoming == old(phiIncoming)
      ensures forwardingForeignExceptionsTerminatedWith == old(forwardingForeignExceptionsTerminatedWith)
    {
      var saved := position;
      position := Unpositioned;
      PositionAtEnd(fatal);
      FatalHere(landingpad);
      position := saved;
    }

    /** At the open end of the current block: begins the C++ catch of a foreign exception and terminates. */
    method FatalHere(landingpad: Value)
      requires Valid() && position.At? && !position.afterTerminator
      modifies this
      ensures Valid() && position == old(position).(afterTerminator := true)
      ensures var n := old(nextValue);
        var loop := old(|blocks|);
        |blocks| == loop + 1 &&
        blocks[position.block] == old(blocks[position.block]) +
          [Op(Val(n), ExtractValue(0), [landingpad]),
           Instr.Call(Val(n + 1), Runtime(CxaBeginCatch), [Val(n)]),
           Instr.Call(Val(n + 2), Runtime(CxxStdTerminate), []),
           Instr.Br(loop)] &&
        blocks[loop] == [Instr.Br(loop)] &&
        nextValue == n + 3
      ensures forall k :: 0 <= k < old(|blocks|) && k != position.block ==> blocks[k] == old(blocks[k])
      ensures returnsByBlock == old(returnsByBlock) && returnSlot == old(returnSlot) && slotsPhi == old(slotsPhi)
      ensures arenaSlot == old(arenaSlot) && slotCount == old(slotCount) && localAllocs == old(localAllocs)
      ensures phiIncoming == old(phiIncoming)
      ensures forwardingForeignExceptionsTerminatedWith == old(forwardingForeignExceptionsTerminatedWith)
    {
      ghost var b := position.block;
      BeginForeignCatch(landingpad);
      ghost var begun := blocks[b];
      Terminate();
      assert blocks[b] == begun + [Instr.Call(Val(old(nextValue) + 2), Runtime(CxxStdTerminate), []), Instr.Br(old(|blocks|))];
    }

    /** The contents of a filtering handler, built from the empty block `lp` on. */
    method BuildFilteringHandler(lp: BlockId)
      requires Valid() && lp < |blocks| && blocks[lp] == [] && position == At(lp, false) && lp != LocalsInitBlock
      requires slotsPhi.Some? && !EndsWithTerminator(blocks[LocalsInitBlock])
      modifies this
      ensures Valid()
      ensures |blocks| == old(|blocks|) + 3
      ensures forall k :: 0 <= k < old(|blocks|) && k != LocalsInitBlock && k != lp ==> blocks[k] == old(blocks[k])
      ensures !EndsWithTerminator(blocks[LocalsInitBlock])
      ensures FilteringHandlerBlocks(blocks, lp, old(|blocks|), old(nextValue), memoryModel)
      ensures slotCount == old(slotCount) + 1
      ensures blocks[LocalsInitBlock] == old(blocks[LocalsInitBlock]) + [SlotAddress(Val(old(nextValue) + 8), old(slotsPhi).value, old(slotCount))]
      ensures returnsByBlock == old(returnsByBlock) && returnSlot == old(returnSlot) && slotsPhi == old(slotsPhi)
      ensures arenaSlot == old(arenaSlot) && localAllocs == old(localAllocs)
      ensures phiIncoming == old(phiIncoming)
      ensures forwardingForeignExceptionsTerminatedWith == old(forwardingForeignExceptionsTerminatedWith)
    {
      var fatal, forward, landingpad := SelectKotlinExceptions(lp);
      ghost var selected := blocks;
      ForwardKotlinException(forward, landingpad);
      ghost var forwarded := blocks;
      assert blocks[lp] == selected[lp];
      FatalForeignException(fatal, landingpad);
      assert blocks[lp] == selected[lp] && blocks[forward] == forwarded[forward];
    }

    /**
     * A handler for calls from code that must not let foreign exceptions
     * through: Kotlin exceptions are forwarded to the surrounding code
     * context's handler, any other exception terminates the program.
     * The position is preserved.
     */
    method FilteringExceptionHandler() returns (handler: ExceptionHandler)
      requires Valid() && slotsPhi.Some? && !EndsWithTerminator(blocks[LocalsInitBlock])
      modifies this
      ensures Valid() && (old(Disciplined()) ==> Disciplined())
      ensures |blocks| == old(|blocks|) + 4 && handler == Local(old(|blocks|))
      ensures FilteringHandlerBlocks(blocks, old(|blocks|), old(|blocks|) + 1, old(nextValue), memoryModel)
      ensures forall k :: 0 <= k < old(|blocks|) && k != LocalsInitBlock ==> blocks[k] == old(blocks[k])
      ensures !EndsWithTerminator(blocks[LocalsInitBlock])
      ensures slotCount == old(slotCount) + 1 && position == old(position)
      ensures blocks[LocalsInitBlock] == old(blocks[LocalsInitBlock]) + [SlotAddress(Val(old(nextValue) + 8), old(slotsPhi).value, old(slotCount))]
      ensures returnsByBlock == old(returnsByBlock) && returnSlot == old(returnSlot) && slotsPhi == old(slotsPhi)
      ensures arenaSlot == old(arenaSlot) && localAllocs == old(localAllocs)
      ensures phiIncoming == old(phiIncoming)
      ensures forwardingForeignExceptionsTerminatedWith == old(forwardingForeignExceptionsTerminatedWith)
    {
      var saved := position;
      position := Unpositioned;
      var lp := NewFilteringHandler();
      position := saved;
      handler := Local(lp);
    }

    /** Builds a filtering handler in new blocks, the landing pad first, from no position back to none. */
    method NewFilteringHandler() returns (lp: BlockId)
      requires Valid() && position.Unpositioned?
      requires slotsPhi.Some? && !EndsWithTerminator(blocks[LocalsInitBlock])
      modifies this
      ensures Valid() && position.Unpositioned? && (old(Disciplined()) ==> Disciplined())
      ensures lp == old(|blocks|) && |blocks| == old(|blocks|) + 4
      ensures FilteringHandlerBlocks(blocks, lp, lp + 1, old(nextValue), memoryModel)
      ensures forall k :: 0 <= k < old(|blocks|) && k != LocalsInitBlock ==> blocks[k] == old(blocks[k])
      ensures !EndsWithTerminator(blocks[LocalsInitBlock])
      ensures blocks[LocalsInitBlock] == old(blocks[LocalsInitBlock]) + [SlotAddress(Val(old(nextValue) + 8), old(slotsPhi).value, old(slotCount))]
      ensures slotCount == old(slotCount) + 1
      ensures returnsByBlock == old(returnsByBlock) && returnSlot == old(returnSlot) && slotsPhi == old(slotsPhi)
      ensures arenaSlot == old(arenaSlot) && localAllocs == old(localAllocs)
      ensures phiIncoming == old(phiIncoming)
      ensures forwardingForeignExceptionsTerminatedWith == old(forwardingForeignExceptionsTerminatedWith)
    {
      lp := BasicBlockInFunction();
      PositionAtEnd(lp);
      BuildFilteringHandler(lp);
      position := Unpositioned;
    }

    /** Sets the function the cleanup landing pad hands foreign exceptions to. */
    method ForwardForeignExceptionsTo(terminator: nat)
      requires Valid()
      modifies this
      ensures Valid() && (old(Disciplined()) ==> Disciplined())
      ensures forwardingForeignExceptionsTerminatedWith == Some(Function(terminator))
      ensures blocks == old(blocks) && position == old(position) && nextValue == old(nextValue)
      ensures returnsByBlock == old(returnsByBlock) && returnSlot == old(returnSlot) && slotsPhi == old(slotsPhi)
      ensures arenaSlot == old(arenaSlot) && slotCount == old(slotCount) && localAllocs == old(localAllocs)
      ensures phiIncoming == old(phiIncoming) && calls == old(calls)
    {
      forwardingForeignExceptionsTerminatedWith := Some(Function(terminator));
    }

    /**
     * Starts the body: an object-returning function's last parameter is
     * its return slot; locals_init gets the phi of the slot array and the
     * arena pointer, which is the slot array's address with its low bit
     * set; code then continues in the entry block. Returns recorded before
     * the prologue violate an assertion.
     */
    method Prologue() returns (r: Outcome)
      requires Valid()
      modifies this
      ensures Valid()
      ensures r.Fail? <==> old(returnsByBlock) != map[]
      ensures r.Fail? ==> (r.error.AssertionFailed? && blocks == old(blocks) && position == old(position) &&
        nextValue == old(nextValue) && slotsPhi == old(slotsPhi))
      ensures r.Pass? ==>
        var n := old(nextValue);
        slotsPhi == Some(Val(n)) && arenaSlot == Some(Val(n + 3)) && nextValue == n + 4 &&
        returnSlot == (if returnKind == ObjectReturn then Some(Param(parameterCount - 1)) else old(returnSlot)) &&
        position == At(EntryBlock, EndsWithTerminator(blocks[EntryBlock]))
      ensures r.Pass? && !EndsWithTerminator(old(blocks[LocalsInitBlock])) ==>
        var n := old(nextValue);
        blocks == old(blocks)[LocalsInitBlock := old(blocks[LocalsInitBlock]) +
          [Phi(Val(n)), Op(Val(n + 1), PtrToInt, [Val(n)]), Op(Val(n + 2), Or, [Val(n + 1), IntConst(1)]),
           Op(Val(n + 3), IntToPtr, [Val(n + 2)])]]
      ensures r.Pass? && old(Disciplined()) && !EndsWithTerminator(old(blocks[LocalsInitBlock])) ==>
        Disciplined() && SlotsOpen()
      ensures returnsByBlock == old(returnsByBlock) && slotCount == old(slotCount) && localAllocs == old(localAllocs)
      ensures phiIncoming == old(phiIncoming) && calls == old(calls)
      ensures forwardingForeignExceptionsTerminatedWith == old(forwardingForeignExceptionsTerminatedWith)
    {
      if returnsByBlock != map[] {
        return Fail(AssertionFailed("no returns before the prologue"));
      }
      if returnKind == ObjectReturn {
        returnSlot := Some(Param(parameterCount - 1));
      }
      OpenSlots();
      PositionAtEnd(EntryBlock);
      r := Pass;
    }

    /** Builds the slots phi and the arena pointer into locals_init and records both. */
    method OpenSlots()
      requires Valid()
      modifies this
      ensures Valid() && position.At? && |blocks| >= old(|blocks|)
      ensures var n := old(nextValue);
        slotsPhi == Some(Val(n)) && arenaSlot == Some(Val(n + 3)) && nextValue == n + 4
      ensures !EndsWithTerminator(old(blocks[LocalsInitBlock])) ==>
        var n := old(nextValue);
        blocks == old(blocks)[LocalsInitBlock := old(blocks[LocalsInitBlock]) +
          [Phi(Val(n)), Op(Val(n + 1), PtrToInt, [Val(n)]), Op(Val(n + 2), Or, [Val(n + 1), IntConst(1)]),
           Op(Val(n + 3), IntToPtr, [Val(n + 2)])]]
      ensures returnsByBlock == old(returnsByBlock) && returnSlot == old(returnSlot)
      ensures slotCount == old(slotCount) && localAllocs == old(localAllocs)
      ensures phiIncoming == old(phiIncoming) && calls == old(calls)
      ensures forwardingForeignExceptionsTerminatedWith == old(forwardingForeignExceptionsTerminatedWith)
    {
      position := Unpositioned;
      PositionAtEnd(LocalsInitBlock);
      MoveOffTerminator();
      var phi, arena := SlotsPhiAndArena();
      slotsPhi := Some(phi);
      arenaSlot := Some(arena);
    }

    /** At the open end of the current block: the slot array phi and the arena pointer derived from it. */
    method SlotsPhiAndArena() returns (phi: Value, arena: Value)
      requires Valid() && position.At? && !position.afterTerminator
      modifies this
      ensures Valid() && position == old(position) && FrameStateUnchanged()
      ensures var n := old(nextValue);
        phi == Val(n) && arena == Val(n + 3) && nextValue == n + 4 &&
        blocks == old(blocks[position.block := blocks[position.block] +
          [Phi(Val(n)), Op(Val(n + 1), PtrToInt, [Val(n)]), Op(Val(n + 2), Or, [Val(n + 1), IntConst(1)]),
           Op(Val(n + 3), IntToPtr, [Val(n + 2)])]])
    {
      phi := NewValue();
      EmitHere(Phi(phi));
      var address := OpHere(PtrToInt, [phi]);
      var tagged := OpHere(Or, [address, IntConst(1)]);
      arena := OpHere(IntToPtr, [tagged]);
      assert blocks[position.block] == old(blocks[position.block]) +
        [Phi(phi), Op(address, PtrToInt, [phi]), Op(tagged, Or, [address, IntConst(1)]), Op(arena, IntToPtr, [tagged])];
    }

    /** Leaves the frame, through the slot phi, when the function needs one. */
    method ReleaseVars()
      requires Valid() && position.At? && !position.afterTerminator && slotsPhi.Some?
      modifies this
      ensures Valid() && position == old(position)
      ensures returnsByBlock == old(returnsByBlock) && returnSlot == old(returnSlot) && slotsPhi == old(slotsPhi)
      ensures arenaSlot == old(arenaSlot) && slotCount == old(slotCount) && localAllocs == old(localAllocs)
      ensures phiIncoming == old(phiIncoming)
      ensures forwardingForeignExceptionsTerminatedWith == old(forwardingForeignExceptionsTerminatedWith)
      ensures FrameEvents(calls) == FrameEvents(old(calls)) +
        Release(NeedSlots(slotCount, skipSlots, frameOverlaySlotCount), slotsPhi.value, skipSlots, slotCount)
      ensures blocks == old(blocks[position.block := blocks[position.block] +
        ReleaseCode(NeedSlots(slotCount, skipSlots, frameOverlaySlotCount), nextValue, slotsPhi.value, skipSlots, slotCount)])
      ensures nextValue == old(nextValue) + |ReleaseCode(NeedSlots(slotCount, skipSlots, frameOverlaySlotCount), 0, NullPointer, 0, 0)|
    {
      if NeedSlots(slotCount, skipSlots, frameOverlaySlotCount) {
        var _ := CallRuntimeHere(LeaveFrame, FrameArgs(slotsPhi.value, skipSlots, slotCount));
      } else {
        assert old(blocks[position.block]) + [] == old(blocks[position.block]);
      }
    }

    /**
     * Finishes the function: builds the frame blocks as `BuildFrame` says,
     * then forgets the returns, the return slot and the slot phi. The frame
     * is entered once and left on every path out of the function, always
     * with the same slot array.
     */
    method Epilogue() returns (r: Outcome)
      requires Valid() && slotsPhi.Some?
      modifies this
      ensures Valid() && position == old(position)
      ensures arenaSlot == old(arenaSlot) && slotCount == old(slotCount) && localAllocs == old(localAllocs)
      ensures forwardingForeignExceptionsTerminatedWith == old(forwardingForeignExceptionsTerminatedWith)
      ensures r.Fail? <==> ((returnKind == VoidReturn && old(returnSlot).Some?) ||
        (forwardingForeignExceptionsTerminatedWith.Some? &&
         TerminatorCallFails(forwardingForeignExceptionsTerminatedWith.value, noUnwindDeclarations, objectReturning)))
      ensures r.Pass? ==> returnsByBlock == map[] && returnSlot == None && slotsPhi == None
      ensures |blocks| >= old(|blocks|)
      ensures forall k :: 0 <= k < old(|blocks|) && (k == EntryBlock || FrameBlockCount <= k) ==> blocks[k] == old(blocks[k])
      ensures r.Pass? ==>
        var slots := if NeedSlotsPhi(slotCount, frameOverlaySlotCount, localAllocs) then Val(old(nextValue)) else NullPointer;
        var returning := returnKind == VoidReturn || old(returnsByBlock) != map[];
        old(slotsPhi).value in phiIncoming && (PrologueBlock, slots) in phiIncoming[old(slotsPhi).value] &&
        FrameEvents(calls) == FrameEvents(old(calls)) +
          FrameProtocol(NeedSlots(slotCount, skipSlots, frameOverlaySlotCount), slots, old(slotsPhi).value, skipSlots, slotCount,
                        if returning then 2 else 1)
    {
      var built;
      ghost var cleanupValue;
      built, cleanupValue := BuildFrame();
      if built.Err? {
        return Fail(built.error);
      }
      ForgetReturns();
      r := Pass;
    }

    /**
     * The end of a function body, after the caller's code: a block left
     * open becomes unreachable, then the epilogue. The code the caller
     * built is kept, and the frame protocol of the whole function is the
     * epilogue's.
     */
    method FinishBody() returns (r: Outcome)
      requires Valid() && slotsPhi.Some? && position.At?
      modifies this
      ensures Valid() && position == old(position).(afterTerminator := true)
      ensures r.Fail? <==> ((returnKind == VoidReturn && old(returnSlot).Some?) ||
        (forwardingForeignExceptionsTerminatedWith.Some? &&
         TerminatorCallFails(forwardingForeignExceptionsTerminatedWith.value, noUnwindDeclarations, objectReturning)))
      ensures r.Pass? ==> returnsByBlock == map[] && returnSlot == None && slotsPhi == None
      ensures |blocks| >= old(|blocks|)
      ensures !old(position.afterTerminator) && (position.block == EntryBlock || FrameBlockCount <= position.block) ==>
        blocks[position.block] == old(blocks[position.block]) + TrapCode(debug, old(nextValue)) + [Instr.Unreachable]
      ensures forall k :: 0 <= k < old(|blocks|) && k != position.block && (k == EntryBlock || FrameBlockCount <= k) ==>
        blocks[k] == old(blocks[k])
      ensures r.Pass? ==>
        var n := if old(position.afterTerminator) then old(nextValue) else old(nextValue) + |TrapCode(debug, 0)|;
        var slots := if NeedSlotsPhi(slotCount, frameOverlaySlotCount, localAllocs) then Val(n) else NullPointer;
        var returning := returnKind == VoidReturn || old(returnsByBlock) != map[];
        FrameEvents(calls) == FrameEvents(old(calls)) +
          FrameProtocol(NeedSlots(slotCount, skipSlots, frameOverlaySlotCount), slots, old(slotsPhi).value, skipSlots, slotCount,
                        if returning then 2 else 1)
    {
      if !position.afterTerminator {
        Unreachable();
      }
      r := Epilogue();
    }

    /** Forgets the returns, the return slot and the slot phi once the epilogue is built. */
    method ForgetReturns()
      requires Valid()
      modifies this
      ensures Valid() && returnsByBlock == map[] && returnSlot == None && slotsPhi == None
      ensures blocks == old(blocks) && position == old(position) && nextValue == old(nextValue) && calls == old(calls)
      ensures phiIncoming == old(phiIncoming) && arenaSlot == old(arenaSlot) && slotCount == old(slotCount)
      ensures localAllocs == old(localAllocs)
      ensures forwardingForeignExceptionsTerminatedWith == old(forwardingForeignExceptionsTerminatedWith)
    {
      returnsByBlock := map[];
      returnSlot := None;
      slotsPhi := None;
    }

    /** The epilogue's code; the function's return and slot state is left as it was. */
    method BuildFrame() returns (r: Result<Value>, ghost cleanupValue: nat)
      requires Valid() && slotsPhi.Some?
      modifies this
      ensures Valid() && position == old(position)
      ensures arenaSlot == old(arenaSlot) && slotCount == old(slotCount) && localAllocs == old(localAllocs)
      ensures forwardingForeignExceptionsTerminatedWith == old(forwardingForeignExceptionsTerminatedWith)
      ensures returnsByBlock == old(returnsByBlock) && returnSlot == old(returnSlot) && slotsPhi == old(slotsPhi)
      ensures r.Err? <==> ((returnKind == VoidReturn && old(returnSlot).Some?) ||
        (forwardingForeignExceptionsTerminatedWith.Some? &&
         TerminatorCallFails(forwardingForeignExceptionsTerminatedWith.value, noUnwindDeclarations, objectReturning)))
      ensures |blocks| >= old(|blocks|)
      ensures forall k :: 0 <= k < old(|blocks|) && (k == EntryBlock || FrameBlockCount <= k) ==> blocks[k] == old(blocks[k])
      ensures r.Ok? ==>
        var slots := if NeedSlotsPhi(slotCount, frameOverlaySlotCount, localAllocs) then Val(old(nextValue)) else NullPointer;
        r.value == slots &&
        var returning := returnKind == VoidReturn || old(returnsByBlock) != map[];
        old(slotsPhi).value in phiIncoming && (PrologueBlock, slots) in phiIncoming[old(slotsPhi).value] &&
        FrameEvents(calls) == FrameEvents(old(calls)) +
          FrameProtocol(NeedSlots(slotCount, skipSlots, frameOverlaySlotCount), slots, old(slotsPhi).value, skipSlots, slotCount,
                        if returning then 2 else 1)
      ensures r.Ok? && old(FrameBlocksOpen(blocks)) ==>
        var setup := SlotArraySetup(old(nextValue), NeedSlotsPhi(slotCount, frameOverlaySlotCount, localAllocs),
                                    NeedSlots(slotCount, skipSlots, frameOverlaySlotCount), slotCount, skipSlots, pointerSize);
        var n := old(nextValue) + |setup|;
        FrameBuilt(old(blocks), blocks, setup,
          EpilogueCode(returnKind, old(returnsByBlock) != map[], old(returnSlot), memoryModel, n, NeedSlots(slotCount, skipSlots, frameOverlaySlotCount),
                       old(slotsPhi).value, skipSlots, slotCount),
          cleanupValue, forwardingForeignExceptionsTerminatedWith, debug, NeedSlots(slotCount, skipSlots, frameOverlaySlotCount),
          old(slotsPhi).value, skipSlots, slotCount)
    {
      ghost var returning := returnKind == VoidReturn || returnsByBlock != map[];
      ghost var phi := slotsPhi.value;
      ghost var needSlots := NeedSlots(slotCount, skipSlots, frameOverlaySlotCount);
      ghost var before := blocks;
      ghost var setup := SlotArraySetup(nextValue, NeedSlotsPhi(slotCount, frameOverlaySlotCount, localAllocs),
                                        needSlots, slotCount, skipSlots, pointerSize);
      ghost var entered := FrameEvents(calls);
      var slots := OpenFrame();
      ghost var frameOpen := blocks;
      ghost var n := nextValue;
      ghost var opening := FrameEvents(calls);
      ghost var incoming := phiIncoming;
      var closed;
      closed, cleanupValue := CloseFrame();
      if closed.Fail? {
        return Err(closed.error), cleanupValue;
      }
      if returnKind != VoidReturn && returnsByBlock != map[] {
        AddIncomingKeeps(incoming, Val(n), ReturnEdges(returnsByBlock), phi, (PrologueBlock, slots));
      }
      FrameEventsComposed(entered, opening, FrameEvents(calls), needSlots, slots, phi, skipSlots, slotCount, returning);
      if FrameBlocksOpen(before) {
        assert frameOpen[EpilogueBlock] == before[EpilogueBlock] && frameOpen[CleanupLandingpad] == before[CleanupLandingpad];
        FrameShapeComposed(old(blocks), frameOpen, blocks, setup,
          EpilogueCode(returnKind, old(returnsByBlock) != map[], old(returnSlot), memoryModel, old(nextValue) + |setup|,
                       NeedSlots(slotCount, skipSlots, frameOverlaySlotCount), old(slotsPhi).value, skipSlots, slotCount),
          cleanupValue, forwardingForeignExceptionsTerminatedWith, debug, NeedSlots(slotCount, skipSlots, frameOverlaySlotCount),
          old(slotsPhi).value, skipSlots, slotCount);
      }
      r := Ok(slots);
    }

    /**
     * The epilogue's work on the epilogue block and the cleanup landing pad,
     * the frame exits; `cleanupValue` is the first value of the cleanup code.
     */
    method CloseFrame() returns (r: Outcome, ghost cleanupValue: nat)
      requires Valid() && slotsPhi.Some?
      modifies this
      ensures Valid() && position == old(position)
      ensures returnsByBlock == old(returnsByBlock) && returnSlot == old(returnSlot) && slotsPhi == old(slotsPhi)
      ensures arenaSlot == old(arenaSlot) && slotCount == old(slotCount) && localAllocs == old(localAllocs)
      ensures forwardingForeignExceptionsTerminatedWith == old(forwardingForeignExceptionsTerminatedWith)
      ensures r.Fail? <==> ((returnKind == VoidReturn && returnSlot.Some?) ||
        (forwardingForeignExceptionsTerminatedWith.Some? &&
         TerminatorCallFails(forwardingForeignExceptionsTerminatedWith.value, noUnwindDeclarations, objectReturning)))
      ensures phiIncoming ==
        if returnKind != VoidReturn && returnsByBlock != map[]
        then AddIncoming(old(phiIncoming), Val(old(nextValue)), ReturnEdges(returnsByBlock))
        else old(phiIncoming)
      ensures r.Pass? ==>
        var needSlots := NeedSlots(slotCount, skipSlots, frameOverlaySlotCount);
        FrameEvents(calls) == FrameEvents(old(calls)) +
          (if returnKind == VoidReturn || returnsByBlock != map[] then Release(needSlots, slotsPhi.value, skipSlots, slotCount) else []) +
          Release(needSlots, slotsPhi.value, skipSlots, slotCount)
      ensures |blocks| >= old(|blocks|)
      ensures blocks[PrologueBlock] == old(blocks[PrologueBlock]) && blocks[LocalsInitBlock] == old(blocks[LocalsInitBlock])
      ensures forall k :: 0 <= k < old(|blocks|) && k != EpilogueBlock && k != CleanupLandingpad ==> blocks[k] == old(blocks[k])
      ensures r.Pass? && !EndsWithTerminator(old(blocks[EpilogueBlock])) && !EndsWithTerminator(old(blocks[CleanupLandingpad])) ==>
        var needSlots := NeedSlots(slotCount, skipSlots, frameOverlaySlotCount);
        blocks[EpilogueBlock] == old(blocks[EpilogueBlock]) +
          EpilogueCode(returnKind, returnsByBlock != map[], returnSlot, memoryModel, old(nextValue), needSlots, slotsPhi.value, skipSlots, slotCount) &&
        CleanupShape(blocks, CleanupLandingpad, old(blocks[CleanupLandingpad]), old(|blocks|), cleanupValue,
                     forwardingForeignExceptionsTerminatedWith, debug, needSlots, slotsPhi.value, skipSlots, slotCount)
    {
      var built := BuildEpilogueBlock();
      cleanupValue := nextValue;
      if built.Fail? {
        return built, cleanupValue;
      }
      r := BuildCleanup();
    }

    /** Sets up the slot array in the prologue and closes locals_init with its branch to the entry block. */
    method OpenFrame() returns (slots: Value)
      requires Valid() && slotsPhi.Some?
      modifies this
      ensures Valid() && position == old(position)
      ensures returnsByBlock == old(returnsByBlock) && returnSlot == old(returnSlot) && slotsPhi == old(slotsPhi)
      ensures arenaSlot == old(arenaSlot) && slotCount == old(slotCount) && localAllocs == old(localAllocs)
      ensures forwardingForeignExceptionsTerminatedWith == old(forwardingForeignExceptionsTerminatedWith)
      ensures slots == if NeedSlotsPhi(slotCount, frameOverlaySlotCount, localAllocs) then Val(old(nextValue)) else NullPointer
      ensures FrameEvents(calls) == FrameEvents(old(calls)) +
        (if NeedSlots(slotCount, skipSlots, frameOverlaySlotCount) then [Entered(FrameArgs(slots, skipSlots, slotCount))] else [])
      ensures slotsPhi.value in phiIncoming && (PrologueBlock, slots) in phiIncoming[slotsPhi.value]
      ensures nextValue == old(nextValue) +
        |SlotArraySetup(old(nextValue), NeedSlotsPhi(slotCount, frameOverlaySlotCount, localAllocs),
                        NeedSlots(slotCount, skipSlots, frameOverlaySlotCount), slotCount, skipSlots, pointerSize)|
      ensures |blocks| >= old(|blocks|)
      ensures forall k :: 0 <= k < old(|blocks|) && k != PrologueBlock && k != LocalsInitBlock ==> blocks[k] == old(blocks[k])
      ensures old(FrameBlocksOpen(blocks)) ==>
        |blocks| == old(|blocks|) &&
        blocks[PrologueBlock] == old(blocks[PrologueBlock]) +
          SlotArraySetup(old(nextValue), NeedSlotsPhi(slotCount, frameOverlaySlotCount, localAllocs),
                     NeedSlots(slotCount, skipSlots, frameOverlaySlotCount), slotCount, skipSlots, pointerSize) +
          [Instr.Br(LocalsInitBlock)] &&
        blocks[LocalsInitBlock] == old(blocks[LocalsInitBlock]) + [Instr.Br(EntryBlock)]
    {
      slots := SetUpFrame();
      assert (PrologueBlock, slots) in phiIncoming[slotsPhi.value];
      ghost var prologue := blocks[PrologueBlock];
      CloseLocalsInit();
      assert blocks[PrologueBlock] == prologue;
    }

    /** Ends locals_init with its branch to the entry block; the position is preserved. */
    method CloseLocalsInit()
      requires Valid()
      modifies this
      ensures Valid() && position == old(position) && nextValue == old(nextValue) && FrameStateUnchanged()
      ensures |blocks| >= old(|blocks|)
      ensures forall k :: 0 <= k < old(|blocks|) && k != LocalsInitBlock ==> blocks[k] == old(blocks[k])
      ensures !EndsWithTerminator(old(blocks[LocalsInitBlock])) ==>
        blocks == old(blocks)[LocalsInitBlock := old(blocks[LocalsInitBlock]) + [Instr.Br(EntryBlock)]]
    {
      var saved := position;
      position := Unpositioned;
      PositionAtEnd(LocalsInitBlock);
      Br(EntryBlock);
      position := saved;
    }

    /**
     * At the end of the prologue block: the slot array, zeroed and entered
     * as the frame when the function has slots of its own; the slot phi's
     * edge from the prologue; the branch to locals_init.
     */
    method SetUpFrame() returns (slots: Value)
      requires Valid() && slotsPhi.Some?
      modifies this
      ensures Valid() && position == old(position)
      ensures returnsByBlock == old(returnsByBlock) && returnSlot == old(returnSlot) && slotsPhi == old(slotsPhi)
      ensures arenaSlot == old(arenaSlot) && slotCount == old(slotCount) && localAllocs == old(localAllocs)
      ensures forwardingForeignExceptionsTerminatedWith == old(forwardingForeignExceptionsTerminatedWith)
      ensures slots == if NeedSlotsPhi(slotCount, frameOverlaySlotCount, localAllocs) then Val(old(nextValue)) else NullPointer
      ensures NeedSlots(slotCount, skipSlots, frameOverlaySlotCount) ==> slots == Val(old(nextValue))
      ensures FrameEvents(calls) == FrameEvents(old(calls)) +
        (if NeedSlots(slotCount, skipSlots, frameOverlaySlotCount) then [Entered(FrameArgs(slots, skipSlots, slotCount))] else [])
      ensures phiIncoming == AddIncoming(old(phiIncoming), slotsPhi.value, {(PrologueBlock, slots)})
      ensures !EndsWithTerminator(old(blocks[PrologueBlock])) ==>
        blocks == old(blocks)[PrologueBlock := old(blocks[PrologueBlock]) +
          SlotArraySetup(old(nextValue), NeedSlotsPhi(slotCount, frameOverlaySlotCount, localAllocs),
                     NeedSlots(slotCount, skipSlots, frameOverlaySlotCount), slotCount, skipSlots, pointerSize) +
          [Instr.Br(LocalsInitBlock)]]
      ensures nextValue == old(nextValue) +
        |SlotArraySetup(0, NeedSlotsPhi(slotCount, frameOverlaySlotCount, localAllocs),
                        NeedSlots(slotCount, skipSlots, frameOverlaySlotCount), slotCount, skipSlots, pointerSize)|
      ensures |blocks| >= old(|blocks|)
      ensures !EndsWithTerminator(old(blocks[PrologueBlock])) ==> |blocks| == old(|blocks|)
      ensures forall k :: 0 <= k < old(|blocks|) && k != PrologueBlock ==> blocks[k] == old(blocks[k])
    {
      var saved := position;
      position := Unpositioned;
      PositionAtEnd(PrologueBlock);
      MoveOffTerminator();
      slots := SetUpSlotArrayHere();
      phiIncoming := AddIncoming(phiIncoming, slotsPhi.value, {(PrologueBlock, slots)});
      position := saved;
    }

    /** Sets up the slot array in the current block and ends it with the branch to locals_init. */
    method SetUpSlotArrayHere() returns (slots: Value)
      requires Valid() && position.At? && !position.afterTerminator
      modifies this
      ensures Valid() && position == old(position).(afterTerminator := true)
      ensures returnsByBlock == old(returnsByBlock) && returnSlot == old(returnSlot) && slotsPhi == old(slotsPhi)
      ensures arenaSlot == old(arenaSlot) && slotCount == old(slotCount) && localAllocs == old(localAllocs)
      ensures phiIncoming == old(phiIncoming)
      ensures forwardingForeignExceptionsTerminatedWith == old(forwardingForeignExceptionsTerminatedWith)
      ensures slots == if NeedSlotsPhi(slotCount, frameOverlaySlotCount, localAllocs) then Val(old(nextValue)) else NullPointer
      ensures FrameEvents(calls) == FrameEvents(old(calls)) +
        (if NeedSlots(slotCount, skipSlots, frameOverlaySlotCount) then [Entered(FrameArgs(slots, skipSlots, slotCount))] else [])
      ensures blocks == old(blocks[position.block := blocks[position.block] +
        SlotArraySetup(nextValue, NeedSlotsPhi(slotCount, frameOverlaySlotCount, localAllocs),
                       NeedSlots(slotCount, skipSlots, frameOverlaySlotCount), slotCount, skipSlots, pointerSize) +
        [Instr.Br(LocalsInitBlock)]])
      ensures nextValue == old(nextValue) +
        |SlotArraySetup(0, NeedSlotsPhi(slotCount, frameOverlaySlotCount, localAllocs),
                        NeedSlots(slotCount, skipSlots, frameOverlaySlotCount), slotCount, skipSlots, pointerSize)|
    {
      ghost var b := position.block;
      slots := AllocateSlotArray();
      AppendToBlockThen(old(blocks), blocks, b,
        SlotArraySetup(old(nextValue), NeedSlotsPhi(slotCount, frameOverlaySlotCount, localAllocs),
                       NeedSlots(slotCount, skipSlots, frameOverlaySlotCount), slotCount, skipSlots, pointerSize),
        [Instr.Br(LocalsInitBlock)]);
      Br(LocalsInitBlock);
    }

    /** At the open end of the current block: the slot array when one is needed, zeroed and entered when the frame has slots of its own. */
    method AllocateSlotArray() returns (slots: Value)
      requires Valid() && position.At? && !position.afterTerminator
      modifies this
      ensures Valid() && position == old(position)
      ensures returnsByBlock == old(returnsByBlock) && returnSlot == old(returnSlot) && slotsPhi == old(slotsPhi)
      ensures arenaSlot == old(arenaSlot) && slotCount == old(slotCount) && localAllocs == old(localAllocs)
      ensures phiIncoming == old(phiIncoming)
      ensures forwardingForeignExceptionsTerminatedWith == old(forwardingForeignExceptionsTerminatedWith)
      ensures slots == if NeedSlotsPhi(slotCount, frameOverlaySlotCount, localAllocs) then Val(old(nextValue)) else NullPointer
      ensures FrameEvents(calls) == FrameEvents(old(calls)) +
        (if NeedSlots(slotCount, skipSlots, frameOverlaySlotCount) then [Entered(FrameArgs(slots, skipSlots, slotCount))] else [])
      ensures blocks == old(blocks[position.block := blocks[position.block] +
        SlotArraySetup(nextValue, NeedSlotsPhi(slotCount, frameOverlaySlotCount, localAllocs),
                       NeedSlots(slotCount, skipSlots, frameOverlaySlotCount), slotCount, skipSlots, pointerSize)])
      ensures nextValue == old(nextValue) +
        |SlotArraySetup(0, NeedSlotsPhi(slotCount, frameOverlaySlotCount, localAllocs),
                        NeedSlots(slotCount, skipSlots, frameOverlaySlotCount), slotCount, skipSlots, pointerSize)|
    {
      EnteredFramesHaveSlots(slotCount, skipSlots, frameOverlaySlotCount, localAllocs);
      ghost var b := position.block;
      if NeedSlotsPhi(slotCount, frameOverlaySlotCount, localAllocs) {
        slots := NewValue();
        EmitHere(ArrayAlloca(slots, slotCount));
      } else {
        slots := NullPointer;
      }
      ghost var alloc := blocks[b];
      if NeedSlots(slotCount, skipSlots, frameOverlaySlotCount) {
        ZeroAndEnterFrame(slots);
        assert blocks[b] == alloc + ZeroAndEnter(slots, old(nextValue) + 1, slotCount, skipSlots, pointerSize);
        assert blocks[b] == old(blocks[b]) + ([ArrayAlloca(slots, slotCount)] + ZeroAndEnter(slots, old(nextValue) + 1, slotCount, skipSlots, pointerSize));
      }
      assert blocks[b] == old(blocks[b]) +
        SlotArraySetup(old(nextValue), NeedSlotsPhi(slotCount, frameOverlaySlotCount, localAllocs),
                       NeedSlots(slotCount, skipSlots, frameOverlaySlotCount), slotCount, skipSlots, pointerSize);
    }

    /** Zeroes the slot array and enters it as the frame. */
    method ZeroAndEnterFrame(slots: Value)
      requires Valid() && position.At? && !position.afterTerminator
      modifies this
      ensures Valid()
      ensures blocks == old(blocks[position.block := blocks[position.block] +
        ZeroAndEnter(slots, nextValue, slotCount, skipSlots, pointerSize)])
      ensures nextValue == old(nextValue) + 3
      ensures FrameEvents(calls) == FrameEvents(old(calls)) + [Entered(FrameArgs(slots, skipSlots, slotCount))]
      ensures position == old(position)
      ensures returnsByBlock == old(returnsByBlock) && returnSlot == old(returnSlot) && slotsPhi == old(slotsPhi)
      ensures arenaSlot == old(arenaSlot) && slotCount == old(slotCount) && localAllocs == old(localAllocs)
      ensures phiIncoming == old(phiIncoming)
      ensures forwardingForeignExceptionsTerminatedWith == old(forwardingForeignExceptionsTerminatedWith)
    {
      ghost var b := position.block;
      var memory := OpHere(Bitcast, [slots]);
      var zero := CallRuntimeHere(Memset, [memory, IntConst(0), IntConst(slotCount * pointerSize), IntConst(0)]);
      var enter := CallRuntimeHere(EnterFrame, FrameArgs(slots, skipSlots, slotCount));
      assert blocks[b] == old(blocks[b]) + ZeroAndEnter(slots, old(nextValue), slotCount, skipSlots, pointerSize);
    }

    /**
     * The shared epilogue block: a void function leaves the frame and
     * returns; a function with recorded returns merges their values in a
     * phi, stores an object result into the caller's return slot, leaves
     * the frame and returns the phi; a function that never returns ends in
     * unreachable. A void function with a return slot violates an assertion.
     */
    method BuildEpilogueBlock() returns (r: Outcome)
      requires Valid() && slotsPhi.Some?
      modifies this
      ensures Valid() && position == old(position)
      ensures returnsByBlock == old(returnsByBlock) && returnSlot == old(returnSlot) && slotsPhi == old(slotsPhi)
      ensures arenaSlot == old(arenaSlot) && slotCount == old(slotCount) && localAllocs == old(localAllocs)
      ensures forwardingForeignExceptionsTerminatedWith == old(forwardingForeignExceptionsTerminatedWith)
      ensures r.Fail? <==> returnKind == VoidReturn && returnSlot.Some?
      ensures r.Fail? ==> r.error.AssertionFailed?
      ensures r.Pass? ==> (FrameEvents(calls) == FrameEvents(old(calls)) +
        (if returnKind == VoidReturn || returnsByBlock != map[]
         then Release(NeedSlots(slotCount, skipSlots, frameOverlaySlotCount), slotsPhi.value, skipSlots, slotCount) else []))
      ensures phiIncoming ==
        if returnKind != VoidReturn && returnsByBlock != map[]
        then AddIncoming(old(phiIncoming), Val(old(nextValue)), ReturnEdges(returnsByBlock))
        else old(phiIncoming)
      ensures |blocks| >= old(|blocks|)
      ensures forall k :: 0 <= k < old(|blocks|) && k != EpilogueBlock ==> blocks[k] == old(blocks[k])
      ensures r.Pass? && !EndsWithTerminator(old(blocks[EpilogueBlock])) ==>
        blocks[EpilogueBlock] == old(blocks[EpilogueBlock]) +
          EpilogueCode(returnKind, returnsByBlock != map[], returnSlot, memoryModel, old(nextValue),
                       NeedSlots(slotCount, skipSlots, frameOverlaySlotCount), slotsPhi.value, skipSlots, slotCount)
      ensures !EndsWithTerminator(old(blocks[EpilogueBlock])) ==> |blocks| == old(|blocks|)
    {
      var saved := position;
      position := Unpositioned;
      PositionAtEnd(EpilogueBlock);
      MoveOffTerminator();
      ghost var open := !EndsWithTerminator(old(blocks[EpilogueBlock]));
      assert open ==> position.block == EpilogueBlock && blocks == old(blocks);
      assert !open ==> position.block == old(|blocks|) && blocks == old(blocks) + [[]];
      r := BuildReturn();
      position := saved;
    }

    /** The epilogue block's code, at the open end of the current block. */
    method BuildReturn() returns (r: Outcome)
      requires Valid() && position.At? && !position.afterTerminator && slotsPhi.Some?
      modifies this
      ensures Valid() && position.At? && position.block == old(position.block)
      ensures returnsByBlock == old(returnsByBlock) && returnSlot == old(returnSlot) && slotsPhi == old(slotsPhi)
      ensures arenaSlot == old(arenaSlot) && slotCount == old(slotCount) && localAllocs == old(localAllocs)
      ensures forwardingForeignExceptionsTerminatedWith == old(forwardingForeignExceptionsTerminatedWith)
      ensures r.Fail? <==> returnKind == VoidReturn && returnSlot.Some?
      ensures r.Fail? ==> r.error.AssertionFailed?
      ensures r.Pass? ==> (FrameEvents(calls) == FrameEvents(old(calls)) +
        (if returnKind == VoidReturn || returnsByBlock != map[]
         then Release(NeedSlots(slotCount, skipSlots, frameOverlaySlotCount), slotsPhi.value, skipSlots, slotCount) else []))
      ensures phiIncoming ==
        if returnKind != VoidReturn && returnsByBlock != map[]
        then AddIncoming(old(phiIncoming), Val(old(nextValue)), ReturnEdges(returnsByBlock))
        else old(phiIncoming)
      ensures |blocks| == old(|blocks|)
      ensures forall k :: 0 <= k < |blocks| && k != position.block ==> blocks[k] == old(blocks[k])
      ensures r.Pass? ==>
        blocks[position.block] == old(blocks[position.block]) +
          EpilogueCode(returnKind, returnsByBlock != map[], returnSlot, memoryModel, old(nextValue),
                       NeedSlots(slotCount, skipSlots, frameOverlaySlotCount), slotsPhi.value, skipSlots, slotCount)
    {
      if returnKind == VoidReturn {
        ghost var b := position.block;
        ReleaseVars();
        if returnSlot.Some? {
          return Fail(AssertionFailed("void function without a return slot"));
        }
        ghost var released := blocks[b];
        EmitTerminator(RetVoid);
        assert blocks[b] == released + [RetVoid];
      } else if returnsByBlock != map[] {
        ReturnThroughPhi();
      } else {
        Emit(Instr.Unreachable);
      }
      r := Pass;
    }

    /** The phi of the values the blocks returned, stored into the return slot and returned. */
    method ReturnThroughPhi()
      requires Valid() && position.At? && !position.afterTerminator && slotsPhi.Some?
      modifies this
      ensures Valid() && position == old(position).(afterTerminator := true)
      ensures returnsByBlock == old(returnsByBlock) && returnSlot == old(returnSlot) && slotsPhi == old(slotsPhi)
      ensures arenaSlot == old(arenaSlot) && slotCount == old(slotCount) && localAllocs == old(localAllocs)
      ensures forwardingForeignExceptionsTerminatedWith == old(forwardingForeignExceptionsTerminatedWith)
      ensures FrameEvents(calls) == FrameEvents(old(calls)) +
        Release(NeedSlots(slotCount, skipSlots, frameOverlaySlotCount), slotsPhi.value, skipSlots, slotCount)
      ensures phiIncoming == AddIncoming(old(phiIncoming), Val(old(nextValue)), ReturnEdges(returnsByBlock))
      ensures blocks == old(blocks[position.block := blocks[position.block] +
        ([Phi(Val(nextValue))] + ReturnCode(Val(nextValue), returnSlot, memoryModel, nextValue + 1,
                                            NeedSlots(slotCount, skipSlots, frameOverlaySlotCount), slotsPhi.value, skipSlots, slotCount))])
    {
      ghost var b := position.block;
      var phi := NewValue();
      EmitHere(Phi(phi));
      phiIncoming := AddIncoming(phiIncoming, phi, ReturnEdges(returnsByBlock));
      AppendToBlockJoin(old(blocks), blocks, b, [Phi(phi)],
        ReturnCode(phi, returnSlot, memoryModel, old(nextValue) + 1,
                   NeedSlots(slotCount, skipSlots, frameOverlaySlotCount), slotsPhi.value, skipSlots, slotCount));
      StoreAndReturn(phi);
    }

    /** At the open end of the current block: stores the result into the return slot, leaves the frame, returns. */
    method StoreAndReturn(result: Value)
      requires Valid() && position.At? && !position.afterTerminator && slotsPhi.Some?
      modifies this
      ensures Valid() && position == old(position).(afterTerminator := true)
      ensures returnsByBlock == old(returnsByBlock) && returnSlot == old(returnSlot) && slotsPhi == old(slotsPhi)
      ensures arenaSlot == old(arenaSlot) && slotCount == old(slotCount) && localAllocs == old(localAllocs)
      ensures forwardingForeignExceptionsTerminatedWith == old(forwardingForeignExceptionsTerminatedWith)
      ensures phiIncoming == old(phiIncoming)
      ensures FrameEvents(calls) == FrameEvents(old(calls)) +
        Release(NeedSlots(slotCount, skipSlots, frameOverlaySlotCount), slotsPhi.value, skipSlots, slotCount)
      ensures blocks == old(blocks[position.block := blocks[position.block] +
        ReturnCode(result, returnSlot, memoryModel, nextValue,
                   NeedSlots(slotCount, skipSlots, frameOverlaySlotCount), slotsPhi.value, skipSlots, slotCount)])
    {
      ghost var b := position.block;
      ghost var store := ReturnSlotStore(returnSlot, memoryModel, result, nextValue);
      StoreReturnHere(result);
      ghost var release := ReleaseCode(NeedSlots(slotCount, skipSlots, frameOverlaySlotCount), nextValue, slotsPhi.value, skipSlots, slotCount);
      AppendToBlockJoin(old(blocks), blocks, b, store, release);
      ReleaseVars();
      AppendToBlockJoin(old(blocks), blocks, b, store + release, [Instr.Ret(result)]);
      EmitTerminator(Instr.Ret(result));
    }

    /** At the open end of the current block: stores `result` into the return slot, if there is one. */
    method StoreReturnHere(result: Value)
      requires Valid() && position.At? && !position.afterTerminator
      modifies this
      ensures Valid() && position == old(position)
      ensures returnsByBlock == old(returnsByBlock) && returnSlot == old(returnSlot) && slotsPhi == old(slotsPhi)
      ensures arenaSlot == old(arenaSlot) && slotCount == old(slotCount) && localAllocs == old(localAllocs)
      ensures forwardingForeignExceptionsTerminatedWith == old(forwardingForeignExceptionsTerminatedWith)
      ensures phiIncoming == old(phiIncoming) && FrameEvents(calls) == FrameEvents(old(calls))
      ensures nextValue == old(nextValue) + ReturnSlotStoreValues(returnSlot, memoryModel)
      ensures blocks == old(blocks[position.block := blocks[position.block] + ReturnSlotStore(returnSlot, memoryModel, result, nextValue)])
    {
      if returnSlot.Some? {
        ghost var b := position.block;
        assert Insertion() == b;
        UpdateReturnRef(result, returnSlot.value);
        assert blocks == old(blocks)[b := old(blocks[b]) + ReturnSlotStore(returnSlot, memoryModel, result, old(nextValue))];
      } else {
        assert blocks[position.block] + [] == blocks[position.block];
        assert blocks[position.block := blocks[position.block]] == blocks;
      }
    }

    /**
     * The cleanup landing pad: it leaves the frame and resumes unwinding.
     * When foreign exceptions are to be terminated, the landing pad also
     * catches everything but Kotlin exceptions and sends a caught foreign
     * exception (a negative selector) to the terminator, built in a new
     * "unexpectedException" block, and the rest to a new "forwardException"
     * block where the frame is left. The position is preserved.
     */
    method BuildCleanup() returns (r: Outcome)
      requires Valid() && slotsPhi.Some?
      modifies this
      ensures Valid() && position == old(position)
      ensures returnsByBlock == old(returnsByBlock) && returnSlot == old(returnSlot) && slotsPhi == old(slotsPhi)
      ensures arenaSlot == old(arenaSlot) && slotCount == old(slotCount) && localAllocs == old(localAllocs)
      ensures phiIncoming == old(phiIncoming)
      ensures forwardingForeignExceptionsTerminatedWith == old(forwardingForeignExceptionsTerminatedWith)
      ensures r.Fail? <==> (forwardingForeignExceptionsTerminatedWith.Some? &&
        TerminatorCallFails(forwardingForeignExceptionsTerminatedWith.value, noUnwindDeclarations, objectReturning))
      ensures r.Fail? ==> r.error.NoExceptionHandler? || r.error.IncorrectSlotType?
      ensures r.Pass? ==> (FrameEvents(calls) == FrameEvents(old(calls)) +
        Release(NeedSlots(slotCount, skipSlots, frameOverlaySlotCount), slotsPhi.value, skipSlots, slotCount))
      ensures |blocks| >= old(|blocks|)
      ensures blocks[PrologueBlock] == old(blocks[PrologueBlock]) && blocks[LocalsInitBlock] == old(blocks[LocalsInitBlock])
      ensures blocks[EpilogueBlock] == old(blocks[EpilogueBlock])
      ensures forall k :: 0 <= k < old(|blocks|) && k != CleanupLandingpad ==> blocks[k] == old(blocks[k])
      ensures r.Pass? && !EndsWithTerminator(old(blocks[CleanupLandingpad])) ==>
        CleanupShape(blocks, CleanupLandingpad, old(blocks[CleanupLandingpad]), old(|blocks|), old(nextValue),
                     forwardingForeignExceptionsTerminatedWith, debug, NeedSlots(slotCount, skipSlots, frameOverlaySlotCount),
                     slotsPhi.value, skipSlots, slotCount)
    {
      var saved := position;
      position := Unpositioned;
      PositionAtEnd(CleanupLandingpad);
      MoveOffTerminator();
      ghost var open := !EndsWithTerminator(old(blocks[CleanupLandingpad]));
      assert open ==> position.block == CleanupLandingpad && blocks == old(blocks);
      assert !open ==> position.block == old(|blocks|) && blocks == old(blocks) + [[]];
      r := BuildCleanupCode();
      position := saved;
    }

    /** The cleanup landing pad's code, at the open end of the current block. */
    method BuildCleanupCode() returns (r: Outcome)
      requires Valid() && position.At? && !position.afterTerminator && slotsPhi.Some?
      modifies this
      ensures Valid() && position.At?
      ensures returnsByBlock == old(returnsByBlock) && returnSlot == old(returnSlot) && slotsPhi == old(slotsPhi)
      ensures arenaSlot == old(arenaSlot) && slotCount == old(slotCount) && localAllocs == old(localAllocs)
      ensures phiIncoming == old(phiIncoming)
      ensures forwardingForeignExceptionsTerminatedWith == old(forwardingForeignExceptionsTerminatedWith)
      ensures r.Fail? <==> (forwardingForeignExceptionsTerminatedWith.Some? &&
        TerminatorCallFails(forwardingForeignExceptionsTerminatedWith.value, noUnwindDeclarations, objectReturning))
      ensures r.Fail? ==> r.error.NoExceptionHandler? || r.error.IncorrectSlotType?
      ensures r.Pass? ==> (FrameEvents(calls) == FrameEvents(old(calls)) +
        Release(NeedSlots(slotCount, skipSlots, frameOverlaySlotCount), slotsPhi.value, skipSlots, slotCount))
      ensures |blocks| >= old(|blocks|)
      ensures forall k :: 0 <= k < old(|blocks|) && k != old(position.block) ==> blocks[k] == old(blocks[k])
      ensures r.Pass? ==>
        CleanupShape(blocks, old(position.block), old(blocks[position.block]), old(|blocks|), old(nextValue),
                     forwardingForeignExceptionsTerminatedWith, debug, NeedSlots(slotCount, skipSlots, frameOverlaySlotCount),
                     slotsPhi.value, skipSlots, slotCount)
    {
      match forwardingForeignExceptionsTerminatedWith {
        case None =>
          ResumeUnwinding();
          r := Pass;
        case Some(terminator) =>
          r := TerminateForeignOrResume(terminator);
      }
    }

    /** The cleanup landing pad's code when foreign exceptions pass through: leave the frame, resume. */
    method ResumeUnwinding()
      requires Valid() && position.At? && !position.afterTerminator && slotsPhi.Some?
      requires forwardingForeignExceptionsTerminatedWith.None?
      modifies this
      ensures Valid() && position.At?
      ensures returnsByBlock == old(returnsByBlock) && returnSlot == old(returnSlot) && slotsPhi == old(slotsPhi)
      ensures arenaSlot == old(arenaSlot) && slotCount == old(slotCount) && localAllocs == old(localAllocs)
      ensures phiIncoming == old(phiIncoming)
      ensures forwardingForeignExceptionsTerminatedWith == old(forwardingForeignExceptionsTerminatedWith)
      ensures FrameEvents(calls) == FrameEvents(old(calls)) +
        Release(NeedSlots(slotCount, skipSlots, frameOverlaySlotCount), slotsPhi.value, skipSlots, slotCount)
      ensures |blocks| == old(|blocks|)
      ensures forall k :: 0 <= k < old(|blocks|) && k != old(position.block) ==> blocks[k] == old(blocks[k])
      ensures CleanupShape(blocks, old(position.block), old(blocks[position.block]), old(|blocks|), old(nextValue),
                           None, debug, NeedSlots(slotCount, skipSlots, frameOverlaySlotCount), slotsPhi.value, skipSlots, slotCount)
    {
      ghost var c := position.block;
      var landingpad := NewValue();
      EmitHere(LandingPad(landingpad, [], true));
      ghost var padded := blocks[c];
      LeaveAndResume(landingpad);
      assert blocks[c] == padded +
        (ReleaseCode(NeedSlots(slotCount, skipSlots, frameOverlaySlotCount), old(nextValue) + 1, slotsPhi.value, skipSlots, slotCount) +
         [Resume(landingpad)]);
    }

    /**
     * The cleanup landing pad's code when foreign exceptions go to
     * `terminator`: catch all but Kotlin exceptions, divert the foreign
     * ones, and leave the frame and resume in the forwarding block.
     */
    method TerminateForeignOrResume(terminator: Callee) returns (r: Outcome)
      requires Valid() && position.At? && !position.afterTerminator && slotsPhi.Some?
      requires forwardingForeignExceptionsTerminatedWith == Some(terminator)
      modifies this
      ensures Valid() && position.At?
      ensures returnsByBlock == old(returnsByBlock) && returnSlot == old(returnSlot) && slotsPhi == old(slotsPhi)
      ensures arenaSlot == old(arenaSlot) && slotCount == old(slotCount) && localAllocs == old(localAllocs)
      ensures phiIncoming == old(phiIncoming)
      ensures forwardingForeignExceptionsTerminatedWith == old(forwardingForeignExceptionsTerminatedWith)
      ensures r.Fail? <==> TerminatorCallFails(terminator, noUnwindDeclarations, objectReturning)
      ensures r.Fail? ==> r.error.NoExceptionHandler? || r.error.IncorrectSlotType?
      ensures r.Pass? ==> (FrameEvents(calls) == FrameEvents(old(calls)) +
        Release(NeedSlots(slotCount, skipSlots, frameOverlaySlotCount), slotsPhi.value, skipSlots, slotCount))
      ensures |blocks| == old(|blocks|) + 2
      ensures forall k :: 0 <= k < old(|blocks|) && k != old(position.block) ==> blocks[k] == old(blocks[k])
      ensures r.Pass? ==>
        CleanupShape(blocks, old(position.block), old(blocks[position.block]), old(|blocks|), old(nextValue),
                     Some(terminator), debug, NeedSlots(slotCount, skipSlots, frameOverlaySlotCount),
                     slotsPhi.value, skipSlots, slotCount)
    {
      ghost var c := position.block;
      ghost var base := |blocks|;
      ghost var n := nextValue;
      var landingpad := NewValue();
      EmitHere(LandingPad(landingpad, [AllButKotlinException], true));
      ghost var padded := blocks[c];
      r := DivertAndResume(landingpad, terminator);
      if r.Pass? {
        assert blocks[c] == padded + [Op(Val(n + 1), ExtractValue(1), [landingpad]), Op(Val(n + 2), IcmpLt, [Val(n + 1), IntConst(0)]),
                                      Instr.CondBr(Val(n + 2), base + 1, base)];
      }
    }

    /**
     * At the open end of the current block: diverts foreign exceptions to
     * the terminator and leaves the frame and resumes in the forwarding
     * block.
     */
    method DivertAndResume(landingpad: Value, terminator: Callee) returns (r: Outcome)
      requires Valid() && position.At? && !position.afterTerminator && slotsPhi.Some? && terminator.Function?
      modifies this
      ensures Valid() && position.At? && |blocks| == old(|blocks|) + 2
      ensures returnsByBlock == old(returnsByBlock) && returnSlot == old(returnSlot) && slotsPhi == old(slotsPhi)
      ensures arenaSlot == old(arenaSlot) && slotCount == old(slotCount) && localAllocs == old(localAllocs)
      ensures phiIncoming == old(phiIncoming)
      ensures forwardingForeignExceptionsTerminatedWith == old(forwardingForeignExceptionsTerminatedWith)
      ensures r.Fail? <==> TerminatorCallFails(terminator, noUnwindDeclarations, objectReturning)
      ensures r.Fail? ==> r.error.NoExceptionHandler? || r.error.IncorrectSlotType?
      ensures forall k :: 0 <= k < old(|blocks|) && k != old(position.block) ==> blocks[k] == old(blocks[k])
      ensures r.Pass? ==>
        var n := old(nextValue);
        var forward := old(|blocks|);
        FrameEvents(calls) == FrameEvents(old(calls)) +
          Release(NeedSlots(slotCount, skipSlots, frameOverlaySlotCount), slotsPhi.value, skipSlots, slotCount) &&
        blocks[old(position.block)] == old(blocks[position.block]) +
          [Op(Val(n), ExtractValue(1), [landingpad]), Op(Val(n + 1), IcmpLt, [Val(n), IntConst(0)]),
           Instr.CondBr(Val(n + 1), forward + 1, forward)] &&
        blocks[forward] == ReleaseCode(NeedSlots(slotCount, skipSlots, frameOverlaySlotCount), n + 5 + |TrapCode(debug, 0)|,
                                       slotsPhi.value, skipSlots, slotCount) + [Resume(landingpad)] &&
        blocks[forward + 1] == UnexpectedExceptionCode(landingpad, terminator, n + 2, debug)
    {
      ghost var forward := |blocks|;
      r := DivertForeignExceptions(landingpad, terminator);
      if r.Fail? {
        return;
      }
      LeaveAndResume(landingpad);
      assert blocks[forward] == [] +
        (ReleaseCode(NeedSlots(slotCount, skipSlots, frameOverlaySlotCount), old(nextValue) + 5 + |TrapCode(debug, 0)|,
                     slotsPhi.value, skipSlots, slotCount) + [Resume(landingpad)]);
    }

    /** At the open end of the current block: leaves the frame and resumes unwinding with `landingpad`. */
    method LeaveAndResume(landingpad: Value)
      requires Valid() && position.At? && !position.afterTerminator && slotsPhi.Some?
      modifies this
      ensures Valid() && position == old(position).(afterTerminator := true)
      ensures returnsByBlock == old(returnsByBlock) && returnSlot == old(returnSlot) && slotsPhi == old(slotsPhi)
      ensures arenaSlot == old(arenaSlot) && slotCount == old(slotCount) && localAllocs == old(localAllocs)
      ensures phiIncoming == old(phiIncoming)
      ensures forwardingForeignExceptionsTerminatedWith == old(forwardingForeignExceptionsTerminatedWith)
      ensures FrameEvents(calls) == FrameEvents(old(calls)) +
        Release(NeedSlots(slotCount, skipSlots, frameOverlaySlotCount), slotsPhi.value, skipSlots, slotCount)
      ensures blocks == old(blocks[position.block := blocks[position.block] +
        (ReleaseCode(NeedSlots(slotCount, skipSlots, frameOverlaySlotCount), nextValue, slotsPhi.value, skipSlots, slotCount) +
         [Resume(landingpad)])])
    {
      ghost var b := position.block;
      ReleaseVars();
      ghost var released := blocks[b];
      EmitTerminator(Resume(landingpad));
      assert blocks[b] == released + [Resume(landingpad)];
      assert blocks[b] == old(blocks[b]) +
        (ReleaseCode(NeedSlots(slotCount, skipSlots, frameOverlaySlotCount), old(nextValue), slotsPhi.value, skipSlots, slotCount) +
         [Resume(landingpad)]);
    }

    /**
     * Creates the forwarding and the unexpected-exception blocks and ends
     * the current block with a branch to the latter when the selector of
     * `landingpad` is negative, which marks an exception that is not Kotlin's.
     */
    method BranchOnForeign(landingpad: Value) returns (forward: BlockId, unexpected: BlockId)
      requires Valid() && position.At? && !position.afterTerminator
      modifies this
      ensures Valid() && |blocks| == old(|blocks|) + 2
      ensures forward == old(|blocks|) && unexpected == forward + 1
      ensures position == old(position).(afterTerminator := true)
      ensures nextValue == old(nextValue) + 2 && FrameStateUnchanged()
      ensures forall k :: 0 <= k < old(|blocks|) && k != old(position.block) ==> blocks[k] == old(blocks[k])
      ensures blocks[forward] == [] && blocks[unexpected] == []
      ensures blocks[position.block] == old(blocks[position.block]) +
        [Op(Val(old(nextValue)), ExtractValue(1), [landingpad]),
         Op(Val(old(nextValue) + 1), IcmpLt, [Val(old(nextValue)), IntConst(0)]),
         Instr.CondBr(Val(old(nextValue) + 1), unexpected, forward)]
    {
      ghost var c := position.block;
      forward := BasicBlock();
      unexpected := BasicBlock();
      var selector := OpHere(ExtractValue(1), [landingpad]);
      var foreign := OpHere(IcmpLt, [selector, IntConst(0)]);
      ghost var compared := blocks[c];
      CondBr(foreign, unexpected, forward);
      assert blocks[c] == compared + [Instr.CondBr(foreign, unexpected, forward)];
    }

    method DivertForeignExceptions(landingpad: Value, terminator: Callee) returns (r: Outcome)
      requires Valid() && position.At? && !position.afterTerminator && terminator.Function?
      modifies this
      ensures Valid() && |blocks| == old(|blocks|) + 2
      ensures returnsByBlock == old(returnsByBlock) && returnSlot == old(returnSlot) && slotsPhi == old(slotsPhi)
      ensures arenaSlot == old(arenaSlot) && slotCount == old(slotCount) && localAllocs == old(localAllocs)
      ensures phiIncoming == old(phiIncoming)
      ensures forwardingForeignExceptionsTerminatedWith == old(forwardingForeignExceptionsTerminatedWith)
      ensures r.Fail? <==> TerminatorCallFails(terminator, noUnwindDeclarations, objectReturning)
      ensures r.Fail? ==> r.error.NoExceptionHandler? || r.error.IncorrectSlotType?
      ensures position.At?
      ensures forall k :: 0 <= k < old(|blocks|) && k != old(position.block) ==> blocks[k] == old(blocks[k])
      ensures r.Pass? ==>
        var n := old(nextValue);
        var forward := old(|blocks|);
        position == At(forward, false) && nextValue == n + 5 + |TrapCode(debug, 0)| &&
        FrameEvents(calls) == FrameEvents(old(calls)) &&
        blocks[old(position.block)] == old(blocks[position.block]) +
          [Op(Val(n), ExtractValue(1), [landingpad]), Op(Val(n + 1), IcmpLt, [Val(n), IntConst(0)]),
           Instr.CondBr(Val(n + 1), forward + 1, forward)] &&
        blocks[forward] == [] && blocks[forward + 1] == UnexpectedExceptionCode(landingpad, terminator, n + 2, debug)
    {
      var forward, unexpected := BranchOnForeign(landingpad);
      r := TerminateForeignException(unexpected, landingpad, terminator);
      if r.Fail? {
        return;
      }
      PositionAtEnd(forward);
    }

    /** In the empty block `unexpected`: begins the C++ catch of a foreign exception and calls the terminator. */
    method TerminateForeignException(unexpected: BlockId, landingpad: Value, terminator: Callee) returns (r: Outcome)
      requires Valid() && unexpected < |blocks| && blocks[unexpected] == [] && terminator.Function?
      modifies this
      ensures Valid() && position == old(position) && |blocks| == old(|blocks|)
      ensures forall b :: 0 <= b < |blocks| && b != unexpected ==> blocks[b] == old(blocks[b])
      ensures returnsByBlock == old(returnsByBlock) && returnSlot == old(returnSlot) && slotsPhi == old(slotsPhi)
      ensures arenaSlot == old(arenaSlot) && slotCount == old(slotCount) && localAllocs == old(localAllocs)
      ensures phiIncoming == old(phiIncoming)
      ensures forwardingForeignExceptionsTerminatedWith == old(forwardingForeignExceptionsTerminatedWith)
      ensures r.Fail? <==> TerminatorCallFails(terminator, noUnwindDeclarations, objectReturning)
      ensures r.Fail? ==> r.error.NoExceptionHandler? || r.error.IncorrectSlotType?
      ensures r.Pass? ==>
        FrameEvents(calls) == FrameEvents(old(calls)) &&
        nextValue == old(nextValue) + 3 + |TrapCode(debug, 0)| &&
        blocks == old(blocks)[unexpected := UnexpectedExceptionCode(landingpad, terminator, old(nextValue), debug)]
    {
      var saved := position;
      position := Unpositioned;
      PositionAtEnd(unexpected);
      r := UnexpectedExceptionBody(landingpad, terminator);
      if r.Pass? {
        ghost var code := UnexpectedExceptionCode(landingpad, terminator, old(nextValue), debug);
        assert [] + code == code;
      }
      position := saved;
    }

    /** The code of TerminateForeignException, at the open end of the current block. */
    method UnexpectedExceptionBody(landingpad: Value, terminator: Callee) returns (r: Outcome)
      requires Valid() && position.At? && !position.afterTerminator && terminator.Function?
      modifies this
      ensures Valid() && |blocks| == old(|blocks|)
      ensures forall b :: 0 <= b < |blocks| && b != old(position.block) ==> blocks[b] == old(blocks[b])
      ensures position == if r.Pass? then old(position).(afterTerminator := true) else old(position)
      ensures returnsByBlock == old(returnsByBlock) && returnSlot == old(returnSlot) && slotsPhi == old(slotsPhi)
      ensures arenaSlot == old(arenaSlot) && slotCount == old(slotCount) && localAllocs == old(localAllocs)
      ensures phiIncoming == old(phiIncoming)
      ensures forwardingForeignExceptionsTerminatedWith == old(forwardingForeignExceptionsTerminatedWith)
      ensures r.Fail? <==> TerminatorCallFails(terminator, noUnwindDeclarations, objectReturning)
      ensures r.Fail? ==> r.error.NoExceptionHandler? || r.error.IncorrectSlotType?
      ensures r.Pass? ==>
        FrameEvents(calls) == FrameEvents(old(calls)) &&
        nextValue == old(nextValue) + 3 + |TrapCode(debug, 0)| &&
        blocks == old(blocks[position.block := blocks[position.block] +
                                               UnexpectedExceptionCode(landingpad, terminator, nextValue, debug)])
    {
      ghost var n := nextValue;
      ghost var b := position.block;
      BeginForeignCatch(landingpad);
      ghost var begun := blocks;
      r := CallTerminatorAndStop(terminator);
      if r.Pass? {
        ghost var head := [Op(Val(n), ExtractValue(0), [landingpad]), Instr.Call(Val(n + 1), Runtime(CxaBeginCatch), [Val(n)])];
        ghost var tail := [Instr.Call(Val(n + 2), terminator, [])] + TrapCode(debug, n + 3) + [Instr.Unreachable];
        AppendToBlockThen(old(blocks), begun, b, head, tail);
        assert old(blocks[b]) + head + tail == old(blocks[b]) + UnexpectedExceptionCode(landingpad, terminator, n, debug);
      }
    }

    /** Calls the terminator and closes the block as unreachable after it. */
    method CallTerminatorAndStop(terminator: Callee) returns (r: Outcome)
      requires Valid() && position.At? && !position.afterTerminator && terminator.Function?
      modifies this
      ensures Valid() && |blocks| == old(|blocks|)
      ensures position == if r.Pass? then old(position).(afterTerminator := true) else old(position)
      ensures returnsByBlock == old(returnsByBlock) && returnSlot == old(returnSlot) && slotsPhi == old(slotsPhi)
      ensures arenaSlot == old(arenaSlot) && slotCount == old(slotCount) && localAllocs == old(localAllocs)
      ensures phiIncoming == old(phiIncoming)
      ensures forwardingForeignExceptionsTerminatedWith == old(forwardingForeignExceptionsTerminatedWith)
      ensures r.Fail? <==> TerminatorCallFails(terminator, noUnwindDeclarations, objectReturning)
      ensures r.Fail? ==> r.error.NoExceptionHandler? || r.error.IncorrectSlotType?
      ensures r.Fail? ==> blocks == old(blocks) && nextValue == old(nextValue)
      ensures r.Pass? ==>
        FrameEvents(calls) == FrameEvents(old(calls)) &&
        nextValue == old(nextValue) + 1 + |TrapCode(debug, 0)| &&
        blocks == old(blocks[position.block := blocks[position.block] +
                                               ([Instr.Call(Val(nextValue), terminator, [])] + TrapCode(debug, nextValue + 1) + [Instr.Unreachable])])
    {
      ghost var n := nextValue;
      ghost var b := position.block;
      r := CallTerminator(terminator);
      if r.Fail? {
        return;
      }
      AppendToBlockTwice(old(blocks), blocks, b, [Instr.Call(Val(n), terminator, [])], TrapCode(debug, n + 1), [Instr.Unreachable]);
      UnreachableHere();
    }

    /** Unreachable at the open end of the current block, which it terminates. */
    method UnreachableHere()
      requires Valid() && position.At? && !position.afterTerminator
      modifies this
      ensures Valid() && (old(Disciplined()) ==> Disciplined())
      ensures position == old(position).(afterTerminator := true)
      ensures returnsByBlock == old(returnsByBlock) && returnSlot == old(returnSlot) && slotsPhi == old(slotsPhi)
      ensures arenaSlot == old(arenaSlot) && slotCount == old(slotCount) && localAllocs == old(localAllocs)
      ensures phiIncoming == old(phiIncoming)
      ensures forwardingForeignExceptionsTerminatedWith == old(forwardingForeignExceptionsTerminatedWith)
      ensures FrameEvents(calls) == FrameEvents(old(calls)) && nextValue == old(nextValue) + |TrapCode(debug, 0)|
      ensures blocks == old(blocks[position.block := blocks[position.block] + TrapCode(debug, nextValue) + [Instr.Unreachable]])
    {
      Unreachable();
    }

    /** At the open end of the current block: the C++ catch of the exception record in `landingpad`. */
    method BeginForeignCatch(landingpad: Value)
      requires Valid() && position.At? && !position.afterTerminator
      modifies this
      ensures Valid() && position == old(position)
      ensures returnsByBlock == old(returnsByBlock) && returnSlot == old(returnSlot) && slotsPhi == old(slotsPhi)
      ensures arenaSlot == old(arenaSlot) && slotCount == old(slotCount) && localAllocs == old(localAllocs)
      ensures phiIncoming == old(phiIncoming)
      ensures forwardingForeignExceptionsTerminatedWith == old(forwardingForeignExceptionsTerminatedWith)
      ensures FrameEvents(calls) == FrameEvents(old(calls)) && nextValue == old(nextValue) + 2
      ensures blocks == old(blocks[position.block := blocks[position.block] +
        [Op(Val(nextValue), ExtractValue(0), [landingpad]), Instr.Call(Val(nextValue + 1), Runtime(CxaBeginCatch), [Val(nextValue)])]])
    {
      ghost var b := position.block;
      var record := OpHere(ExtractValue(0), [landingpad]);
      var _ := CallRuntimeHere(CxaBeginCatch, [record]);
      assert blocks[b] == old(blocks[b]) + [Op(record, ExtractValue(0), [landingpad]), Instr.Call(Val(old(nextValue) + 1), Runtime(CxaBeginCatch), [record])];
    }

    /** At the open end of the current block: calls `terminator` with no arguments, no handler and no result slot. */
    method CallTerminator(terminator: Callee) returns (r: Outcome)
      requires Valid() && position.At? && !position.afterTerminator && terminator.Function?
      modifies this
      ensures Valid() && position == old(position)
      ensures returnsByBlock == old(returnsByBlock) && returnSlot == old(returnSlot) && slotsPhi == old(slotsPhi)
      ensures arenaSlot == old(arenaSlot) && slotCount == old(slotCount) && localAllocs == old(localAllocs)
      ensures phiIncoming == old(phiIncoming)
      ensures forwardingForeignExceptionsTerminatedWith == old(forwardingForeignExceptionsTerminatedWith)
      ensures r.Fail? <==> TerminatorCallFails(terminator, noUnwindDeclarations, objectReturning)
      ensures r.Fail? ==> r.error.NoExceptionHandler? || r.error.IncorrectSlotType?
      ensures r.Pass? ==>
        FrameEvents(calls) == FrameEvents(old(calls)) && nextValue == old(nextValue) + 1 &&
        blocks == old(blocks[position.block := blocks[position.block] + [Instr.Call(Val(nextValue), terminator, [])]])
      ensures r.Fail? ==> blocks == old(blocks) && nextValue == old(nextValue)
    {
      var c := Call(terminator, [], Unknown, NoHandler, false);
      if c.Err? {
        return Fail(c.error);
      }
      FrameEventsAppend(old(calls), EmittedCall(c.value, terminator, [], None));
      r := Pass;
    }
  }
}
