/**
 * The vocabulary of per-function code generation: abstract instructions
 * (LLVM handles become opaque ids), exception handlers, and the decisions
 * that depend only on counters and configuration: whether a function needs
 * a GC slot array and a frame, where a call unwinds to, how a reference is
 * stored under each memory model, and how a virtual call is dispatched.
 */
module CodeGenIr {
  import opened Wrappers
  import opened StaticObjects

  type BlockId = nat

  /** An SSA value: the result of an emitted instruction, or something given. */
  datatype Value =
    | Val(id: nat)
    | Param(index: nat)
    | IntConst(n: int)
    | NullPointer
    | Global(name: string)

  /** Runtime and compiler-support functions the code generator calls itself. */
  datatype RuntimeFunction =
    | EnterFrame | LeaveFrame | Memset
    | UpdateStackRef | UpdateHeapRef | UpdateReturnRef
    | FreezeSubgraph | CheckMainThread
    | LookupOpenMethod | LookupInterfaceTableRecord | GetObjCKotlinTypeInfo
    | LlvmTrap | EhTypeidFor | CxaBeginCatch | CxaEndCatch | CxxStdTerminate

  datatype Callee = Runtime(fn: RuntimeFunction) | Function(id: nat)

  /** Non-terminating value computations, by kind. */
  datatype Operation =
    | Load | Gep | StructGep(field: nat) | Bitcast | PtrToInt | IntToPtr
    | And | Or | Sub | IcmpEq | IcmpGe | IcmpLt | ExtractValue(index: nat)

  datatype Clause = KotlinExceptionRtti | CatchAll | AllButKotlinException

  datatype Instr =
    | Call(result: Value, callee: Callee, args: seq<Value>)
    | Invoke(result: Value, callee: Callee, args: seq<Value>, normal: BlockId, unwind: BlockId)
    | Store(value: Value, address: Value)
    | Alloca(result: Value)
    | ArrayAlloca(result: Value, count: nat)
      /** The address of GC slot `slot` in the slot array `base`. */
    | SlotAddress(result: Value, base: Value, slot: nat)
    | Phi(result: Value)
    | Op(result: Value, op: Operation, operands: seq<Value>)
    | LandingPad(result: Value, clauses: seq<Clause>, cleanup: bool)
      /** The rethrow emitted by the surrounding code context. */
    | Throw(exception: Value)
    | Br(target: BlockId)
    | CondBr(condition: Value, ifTrue: BlockId, ifFalse: BlockId)
    | Ret(value: Value)
    | RetVoid
    | Unreachable
    | Resume(value: Value)

  predicate IsTerminator(i: Instr) {
    i.Invoke? || i.Throw? || i.Br? || i.CondBr? || i.Ret? || i.RetVoid? || i.Unreachable? || i.Resume?
  }

  predicate EndsWithTerminator(block: seq<Instr>) {
    |block| > 0 && IsTerminator(block[|block| - 1])
  }

  // ---------------------------------------------------------------------
  // Frames and GC slots
  // ---------------------------------------------------------------------

  /** Whether the frame holds slots of its own beyond the overlay: then it is zeroed and entered. */
  function NeedSlots(slotCount: nat, skipSlots: nat, frameOverlaySlotCount: nat): bool {
    slotCount - skipSlots > frameOverlaySlotCount
  }

  /** Whether a slot array is allocated at all: slots beyond the overlay, or arena allocations. */
  function NeedSlotsPhi(slotCount: nat, frameOverlaySlotCount: nat, localAllocs: nat): bool {
    slotCount > frameOverlaySlotCount || localAllocs > 0
  }

  /**
   * A frame is entered only when its slot array was allocated, so
   * `EnterFrame` never receives the null slot pointer; and a function with
   * no slots of its own and no arena allocations gets neither.
   */
  lemma EnteredFramesHaveSlots(slotCount: nat, skipSlots: nat, frameOverlaySlotCount: nat, localAllocs: nat)
    ensures NeedSlots(slotCount, skipSlots, frameOverlaySlotCount) ==>
      NeedSlotsPhi(slotCount, frameOverlaySlotCount, localAllocs)
    ensures !NeedSlotsPhi(slotCount, frameOverlaySlotCount, localAllocs) <==>
      slotCount <= frameOverlaySlotCount && localAllocs == 0
  {
  }

  // ---------------------------------------------------------------------
  // Exception handlers and unwind edges
  // ---------------------------------------------------------------------

  datatype ExceptionHandler =
    | NoHandler
    | Caller
    | Local(unwind: BlockId)

  /** The unwind edge of a call that may throw: none is an error. */
  function UnwindTarget(handler: ExceptionHandler, cleanupLandingpad: BlockId): (r: Result<BlockId>)
    ensures r.Err? <==> handler.NoHandler?
    ensures handler.Caller? ==> r == Ok(cleanupLandingpad)
    ensures handler.Local? ==> r == Ok(handler.unwind)
  {
    match handler
    case NoHandler => Err(NoExceptionHandler("callee without nounwind"))
    case Caller => Ok(cleanupLandingpad)
    case Local(unwind) => Ok(unwind)
  }

  // ---------------------------------------------------------------------
  // Result slots of object-returning calls
  // ---------------------------------------------------------------------

  /** The slot type of a result lifetime; `Unknown` is that of an irrelevant lifetime. */
  datatype SlotType = Arena | Return | Anonymous | Stack | Unknown

  /** Which extra argument an object-returning call gets. */
  datatype ResultSlot = ArenaSlot | ReturnSlot | FreshAnonymousSlot

  function ResultSlotFor(slotType: SlotType): (r: Result<ResultSlot>)
    ensures r.Err? <==> slotType.Stack? || slotType.Unknown?
    ensures slotType.Arena? ==> r == Ok(ArenaSlot)
    ensures slotType.Return? ==> r == Ok(ReturnSlot)
    ensures slotType.Anonymous? ==> r == Ok(FreshAnonymousSlot)
  {
    match slotType
    case Arena => Ok(ArenaSlot)
    case Return => Ok(ReturnSlot)
    case Anonymous => Ok(FreshAnonymousSlot)
    case _ => Err(IncorrectSlotType)
  }

  // ---------------------------------------------------------------------
  // Reference stores
  // ---------------------------------------------------------------------

  datatype MemoryModel = Strict | Relaxed

  /** Where a reference is stored: a stack slot, a heap field, or the caller's return slot. */
  datatype RefLocation = StackLocation | HeapLocation | ReturnLocation

  /** How a store is emitted: a plain store, or a call of a runtime barrier. */
  datatype StoreKind = PlainStore | BarrierCall(fn: RuntimeFunction)

  function RefStore(location: RefLocation, memoryModel: MemoryModel): StoreKind {
    match location
    case StackLocation => if memoryModel == Strict then PlainStore else BarrierCall(UpdateStackRef)
    case HeapLocation => BarrierCall(UpdateHeapRef)
    case ReturnLocation => if memoryModel == Strict then PlainStore else BarrierCall(UpdateReturnRef)
  }

  /** How `storeAny` stores a value: scalars are always plain stores. */
  function StoreAnyKind(isObjectRef: bool, onStack: bool, memoryModel: MemoryModel): StoreKind {
    if isObjectRef then RefStore(if onStack then StackLocation else HeapLocation, memoryModel)
    else PlainStore
  }

  /**
   * Heap stores always go through the runtime; stack and return-slot stores
   * skip it exactly under the strict memory model; and each barrier is the
   * one for its location.
   */
  lemma RefStorePolicy(location: RefLocation, memoryModel: MemoryModel)
    ensures RefStore(location, memoryModel).PlainStore? <==> memoryModel == Strict && !location.HeapLocation?
    ensures RefStore(location, memoryModel).BarrierCall? ==>
      RefStore(location, memoryModel).fn ==
        (match location
         case StackLocation => UpdateStackRef
         case HeapLocation => UpdateHeapRef
         case ReturnLocation => UpdateReturnRef)
  {
  }

  lemma StoreAnyPolicy(isObjectRef: bool, onStack: bool, memoryModel: MemoryModel)
    ensures !isObjectRef ==> StoreAnyKind(isObjectRef, onStack, memoryModel) == PlainStore
    ensures isObjectRef && !onStack ==> StoreAnyKind(isObjectRef, onStack, memoryModel) == BarrierCall(UpdateHeapRef)
    ensures isObjectRef && onStack ==>
      (StoreAnyKind(isObjectRef, onStack, memoryModel) == PlainStore <==> memoryModel == Strict)
  {
  }

  // ---------------------------------------------------------------------
  // Virtual dispatch
  // ---------------------------------------------------------------------

  datatype Modality = Final | Open | Abstract

  datatype ClassRef = ClassRef(id: nat, isInterface: bool, isAny: bool)

  datatype FunctionRef = FunctionRef(id: nat, parent: ClassRef)

  /**
   * A member function as dispatch sees it: its modality and the
   * declaration its fake overrides resolve to.
   */
  datatype SimpleFunction = SimpleFunction(
    self: FunctionRef, modality: Modality, resolvedFakeOverride: FunctionRef, isObjCMethod: bool)

  /** `Any` is a class, not an interface. */
  predicate WellFormedClass(c: ClassRef) {
    c.isAny ==> !c.isInterface
  }

  /** The method of `Any` a non-abstract function resolves to, if any. */
  function FindOverriddenMethodOfAny(f: SimpleFunction): Option<FunctionRef> {
    if f.modality == Abstract then None
    else if f.resolvedFakeOverride.parent.isAny then Some(f.resolvedFakeOverride)
    else None
  }

  /** The function whose owner and vtable index dispatch uses. */
  function DispatchTarget(f: SimpleFunction): FunctionRef {
    match FindOverriddenMethodOfAny(f)
    case Some(m) => m
    case None => f.self
  }

  datatype Dispatch =
    | VTable(target: FunctionRef)
    | OpenMethodLookup
    | InterfaceTable

  function DispatchKind(f: SimpleFunction, ghaEnabled: bool): Dispatch {
    var target := DispatchTarget(f);
    if !target.parent.isInterface then VTable(target)
    else if !ghaEnabled then OpenMethodLookup
    else InterfaceTable
  }

  /**
   * Dispatch goes through the vtable exactly when the resolved owner is a
   * class, through the open-method hash exactly when it is an interface and
   * global hierarchy analysis is off, and through the interface table
   * otherwise; a non-abstract method resolving to `Any` (toString, equals,
   * hashCode called on an interface instance) always takes the vtable.
   */
  lemma DispatchSpec(f: SimpleFunction, ghaEnabled: bool)
    requires WellFormedClass(f.resolvedFakeOverride.parent)
    ensures DispatchKind(f, ghaEnabled).VTable? <==> !DispatchTarget(f).parent.isInterface
    ensures DispatchKind(f, ghaEnabled) == OpenMethodLookup <==>
      DispatchTarget(f).parent.isInterface && !ghaEnabled
    ensures DispatchKind(f, ghaEnabled) == InterfaceTable <==>
      DispatchTarget(f).parent.isInterface && ghaEnabled
    ensures f.modality != Abstract && f.resolvedFakeOverride.parent.isAny ==>
      DispatchKind(f, ghaEnabled) == VTable(f.resolvedFakeOverride)
    ensures f.modality == Abstract ==> DispatchTarget(f) == f.self
  {
  }

  // ---------------------------------------------------------------------
  // Interface tables
  // ---------------------------------------------------------------------

  /** Whether the interface table lookup is emitted as the fast path alone. */
  function StaticFastPath(bitsPerColor: nat, maxBitsPerColor: nat, producesFramework: bool): bool {
    bitsPerColor <= maxBitsPerColor && !producesFramework
  }

  /** Bitwise `and` of the low `width` bits of two naturals, bit by bit from the least significant. */
  function BitAnd(u: nat, v: nat, width: nat): nat
  {
    if width == 0 then 0
    else (if u % 2 == 1 && v % 2 == 1 then 1 else 0) + 2 * BitAnd(u / 2, v / 2, width - 1)
  }

  lemma {:induction false} BitAndBelow(u: nat, v: nat, width: nat)
    ensures BitAnd(u, v, width) <= u
  {
    if width > 0 {
      BitAndBelow(u / 2, v / 2, width - 1);
    }
  }

  /** The unsigned reading of a 32-bit word. */
  function Unsigned32(a: int): (u: nat)
    ensures u < Two32
    ensures 0 <= a < Two32 ==> u == a
  {
    a % Two32
  }

  /** Bitwise `and` of two unsigned 32-bit words. */
  function BitAnd32(u: nat, v: nat): (r: nat)
    requires u < Two32 && v < Two32
    ensures r <= u
  {
    BitAndBelow(u, v, 32);
    BitAnd(u, v, 32)
  }

  /** Two's complement `and` of two 32-bit integers. */
  function And32(a: int, b: int): (r: int)
    requires IsInt32(a) && IsInt32(b)
    ensures IsInt32(r)
  {
    ToInt32(BitAnd32(Unsigned32(a), Unsigned32(b)))
  }

  /** Two's complement `sub` of two 32-bit integers. */
  function Sub32(a: int, b: int): (r: int)
    ensures IsInt32(r)
    ensures (r - (a - b)) % Two32 == 0
  {
    ToInt32(a - b)
  }

  /** The record a lookup reads: a fast index into the table, or the runtime search over `size` entries. */
  datatype TableAccess = FastIndex(index: int) | RuntimeSearch(size: int)

  /** What the emitted lookup computes at run time for a table size word and an interface id. */
  function InterfaceTableAccess(size: int, interfaceId: int, staticFast: bool): TableAccess
    requires IsInt32(size) && IsInt32(interfaceId)
  {
    if staticFast || size >= 0 then FastIndex(And32(size, interfaceId))
    else RuntimeSearch(Sub32(0, size))
  }

  /** The `and` of a non-negative word with any word lies between zero and that word. */
  lemma AndOfNonNegative(a: int, b: int)
    requires 0 <= a < Two31 && IsInt32(b)
    ensures 0 <= And32(a, b) <= a
  {
    var r := BitAnd32(Unsigned32(a), Unsigned32(b));
    assert r <= a;
    assert IsInt32(r);
  }

  lemma NegateWraps()
    ensures Sub32(0, -Two31) == -Two31
  {
    assert Two31 % Two32 == Two31;
  }

  /**
   * A non-negative size word is the mask of a table of `size + 1` entries:
   * the fast path indexes within it. A negative size word sends the lookup to
   * the runtime search with the table's actual, positive size, except for the
   * one word `-2^31`, whose negation wraps around.
   */
  lemma InterfaceTableAccessSpec(size: int, interfaceId: int, staticFast: bool)
    requires IsInt32(size) && IsInt32(interfaceId)
    ensures size >= 0 ==>
      InterfaceTableAccess(size, interfaceId, staticFast).FastIndex? &&
      0 <= InterfaceTableAccess(size, interfaceId, staticFast).index <= size
    ensures -Two31 < size < 0 && !staticFast ==>
      InterfaceTableAccess(size, interfaceId, staticFast) == RuntimeSearch(-size)
    ensures size == -Two31 && !staticFast ==>
      InterfaceTableAccess(size, interfaceId, staticFast) == RuntimeSearch(-Two31)
  {
    if size >= 0 {
      AndOfNonNegative(size, interfaceId);
    } else if size == -Two31 {
      NegateWraps();
    }
  }
}
