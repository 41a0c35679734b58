/** The non-string parts of the portable runtime layer that carry logic: the
    `__next_prime` table lookup, the Wasm page-size arithmetic and the
    per-thread LIFO list of destructor records run at thread exit. */
module PortingRuntime {
  import opened Wrappers
  import opened Sequences

  // ------------------------------------------------------------ next_prime

  /** The prime table of `__next_prime`, ascending. */
  const Primes: seq<int> := [11, 101, 1009, 10007, 100003, 1000003, 10000019, 100000007, 1000000007]

  /** The first table prime that is at least `n`; the process aborts when `n`
      exceeds the last table entry. */
  method NextPrime(n: nat) returns (r: Result<int>)
    ensures r.Err? <==> n > 1000000007
    ensures r.Err? ==> r.error == Abort
    ensures r.Ok? ==> r.value in Primes && r.value >= n
    ensures r.Ok? ==> forall p :: p in Primes && p < r.value ==> p < n
  {
    if n > Primes[|Primes| - 1] {
      return Err(Abort);
    }
    var prime := Primes[0];
    var i := 0;
    while i < |Primes|
      invariant 0 <= i <= |Primes|
      invariant forall j :: 0 <= j < i ==> Primes[j] < n
      invariant prime in Primes
    {
      prime := Primes[i];
      if prime >= n {
        break;
      }
      i := i + 1;
    }
    r := Ok(prime);
  }

  /** The `int` overload converts its argument to a 32-bit `unsigned long`, so
      a negative argument becomes huge and aborts. */
  method NextPrimeOfInt(n: int) returns (r: Result<int>)
    requires -0x8000_0000 <= n < 0x8000_0000
    ensures n < 0 ==> r == Err(Abort)
    ensures 0 <= n <= 11 ==> r == Ok(11)
    ensures 0 <= n ==> (r.Err? <==> n > 1000000007)
    ensures 0 <= n && r.Ok? ==> r.value in Primes && r.value >= n
    ensures 0 <= n && r.Ok? ==> forall p :: p in Primes && p < r.value ==> p < n
  {
    r := NextPrime(n % 0x1_0000_0000);
    if 0 <= n <= 11 {
      assert Primes[0] == 11 && Primes[0] in Primes;
      assert r.value <= 11;
    }
  }

  // ------------------------------------------------------ Wasm page arithmetic

  const PageSizeExponent: nat := 16
  const PageSize: nat := 65536
  const PageMask: nat := 65535
  const Two32: nat := 0x1_0000_0000

  /** `(value + PAGEMASK) & ~PAGEMASK` on a signed 32-bit argument: the sum is
      taken modulo 2^32 and the low sixteen bits are cleared. For a
      non-negative value it is the least multiple of the page size that is not
      below the value. */
  function PageAlign(value: int): (r: nat)
    requires -0x8000_0000 <= value < 0x8000_0000
    ensures r < Two32 && r % PageSize == 0
    ensures 0 <= value ==> value <= r < value + PageSize
    ensures -65535 <= value < 0 ==> r == 0
  {
    var u := (value % Two32 + PageMask) % Two32;
    u - u % PageSize
  }

  /** A page count in bytes, as a 32-bit shift. */
  function InBytes(pageCount: nat): (r: nat)
    requires pageCount < Two32
    ensures r < Two32 && r % PageSize == 0
    ensures pageCount < PageSize ==> r == pageCount * PageSize
  {
    (pageCount * PageSize) % Two32
  }

  /** A byte count in whole pages, rounding down. */
  function InPages(value: nat): (r: nat)
    requires value < Two32
    ensures r < PageSize
    ensures r * PageSize <= value < (r + 1) * PageSize
  {
    value / PageSize
  }

  /** Converting pages to bytes and back is the identity for every count that
      fits in a 32-bit address space; an aligned size survives the round trip
      the other way. */
  lemma PagesRoundTrip(pageCount: nat, value: int)
    requires pageCount < PageSize
    requires -0x8000_0000 <= value < 0x8000_0000
    ensures InPages(InBytes(pageCount)) == pageCount
    ensures InBytes(InPages(PageAlign(value))) == PageAlign(value)
  {
    var a := PageAlign(value);
    var p := InPages(a);
    assert a == p * PageSize;
  }

  // ---------------------------------------------------- thread-exit destructors

  /** A registered destructor and its parameter; both are foreign pointers. */
  datatype DestructorRecord = DestructorRecord(destructor: nat, parameter: nat)

  /** The list head after pushing each of `regs`, in order, onto `head`. */
  function PushAll(head: seq<DestructorRecord>, regs: seq<DestructorRecord>): seq<DestructorRecord>
    decreases |regs|
  {
    if regs == [] then head else PushAll([regs[0]] + head, regs[1..])
  }

  /** Registering records one after another leaves them in reverse order of
      registration in front of what was there. */
  lemma {:induction false} PushAllReverses(head: seq<DestructorRecord>, regs: seq<DestructorRecord>)
    ensures PushAll(head, regs) == Reverse(regs) + head
    decreases |regs|
  {
    if regs != [] {
      PushAllReverses([regs[0]] + head, regs[1..]);
      assert Reverse(regs) == Reverse(regs[1..]) + [regs[0]];
    }
  }

  /** The per-thread termination state: `head` is the value of the thread's
      termination key (most recent record first); `invoked` and `freed` log the
      destructor calls and the records released, in order. */
  class ThreadTermination {
    var head: seq<DestructorRecord>
    var invoked: seq<DestructorRecord>
    var freed: seq<DestructorRecord>

    constructor ()
      ensures head == [] && invoked == [] && freed == []
    {
      head, invoked, freed := [], [], [];
    }

    /** onThreadExit pushes a new record onto the head of the list. */
    method OnThreadExit(destructor: nat, parameter: nat)
      modifies this
      ensures head == [DestructorRecord(destructor, parameter)] + old(head)
      ensures invoked == old(invoked) && freed == old(freed)
    {
      var destructorRecord := DestructorRecord(destructor, parameter);
      head := [destructorRecord] + head;
    }

    /** onThreadExitCallback walks the list from its head, calling each
      destructor with its own parameter and freeing each record, then clears
      the key. */
    method OnThreadExitCallback()
      modifies this
      ensures invoked == old(invoked) + old(head)
      ensures freed == old(freed) + old(head)
      ensures head == []
    {
      var records := head;
      var i := 0;
      while i < |records|
        invariant 0 <= i <= |records|
        invariant invoked == old(invoked) + records[..i]
        invariant freed == old(freed) + records[..i]
      {
        invoked := invoked + [records[i]];
        freed := freed + [records[i]];
        i := i + 1;
        assert records[..i] == records[..i - 1] + [records[i - 1]];
      }
      assert records[..i] == records;
      head := [];
    }
  }

  /** Destructors run in reverse registration order: the k-th call made at
      thread exit is the (n-1-k)-th registration. */
  lemma DestructorsRunLifo(regs: seq<DestructorRecord>, k: nat)
    requires k < |regs|
    ensures |PushAll([], regs)| == |regs|
    ensures PushAll([], regs)[k] == regs[|regs| - 1 - k]
  {
    PushAllReverses([], regs);
  }

  /** Registration order is observable: a thread that registers the records
      `regs` and then exits has run exactly their reversal. */
  method RegisterThenExit(regs: seq<DestructorRecord>) returns (run: seq<DestructorRecord>)
    ensures run == Reverse(regs)
  {
    var t := new ThreadTermination();
    var i := 0;
    while i < |regs|
      invariant 0 <= i <= |regs|
      invariant t.head == PushAll([], regs[..i]) && t.invoked == []
    {
      PushAllSnoc(regs[..i], regs[i]);
      t.OnThreadExit(regs[i].destructor, regs[i].parameter);
      i := i + 1;
      assert regs[..i] == regs[..i - 1] + [regs[i - 1]];
    }
    assert regs[..i] == regs;
    t.OnThreadExitCallback();
    PushAllReverses([], regs);
    run := t.invoked;
  }

  lemma PushAllSnoc(regs: seq<DestructorRecord>, x: DestructorRecord)
    ensures PushAll([], regs + [x]) == [x] + PushAll([], regs)
  {
    PushAllReverses([], regs + [x]);
    PushAllReverses([], regs);
    assert Reverse(regs + [x]) == [x] + Reverse(regs);
  }
}
