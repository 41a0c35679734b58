/**
 * Constant Kotlin objects emitted into the data section of the produced
 * module: arrays, class instances laid out field by field, the hash map and
 * hash set that back statically evaluated collection literals, and the
 * content-addressed names of string and boxed `Int` constants.
 */
module StaticObjects {
  import opened Wrappers
  import opened Sequences

  // ---------------------------------------------------------------------
  // Kotlin `Int` arithmetic used by the hash-map layout
  // ---------------------------------------------------------------------

  const Two30: int := 0x4000_0000
  const Two31: int := 0x8000_0000
  const Two32: int := 0x1_0000_0000

  predicate IsInt32(x: int) {
    -Two31 <= x < Two31
  }

  /** Two's-complement truncation to a Kotlin `Int`, as `shl` and `*` on `Int` do. */
  function ToInt32(x: int): (r: int)
    ensures IsInt32(r)
    ensures (r - x) % Two32 == 0
    ensures IsInt32(x) ==> r == x
  {
    var u := x % Two32;
    if u >= Two31 then u - Two32 else u
  }

  function Pow2(k: nat): (r: nat)
    ensures r >= 1
  {
    if k == 0 then 1 else 2 * Pow2(k - 1)
  }

  lemma {:induction false} Pow2Add(a: nat, b: nat)
    ensures Pow2(a + b) == Pow2(a) * Pow2(b)
    decreases a
  {
    if a > 0 {
      Pow2Add(a - 1, b);
      assert Pow2(a + b) == 2 * Pow2(a - 1 + b);
    }
  }

  lemma {:induction false} Pow2Monotone(a: nat, b: nat)
    requires a <= b
    ensures Pow2(a) <= Pow2(b)
    decreases b
  {
    if a < b {
      Pow2Monotone(a, b - 1);
    }
  }

  lemma Pow2Values()
    ensures Pow2(30) == Two30 && Pow2(31) == Two31 && Pow2(32) == Two32
  {
    Pow2Add(10, 10);
    Pow2Add(20, 10);
    Pow2Add(30, 1);
    Pow2Add(31, 1);
    assert Pow2(10) == 1024 by {
      assert Pow2(5) == 32;
      Pow2Add(5, 5);
    }
  }

  /** Floor of the binary logarithm. */
  function Log2(n: nat): nat
    requires n >= 1
  {
    if n == 1 then 0 else 1 + Log2(n / 2)
  }

  lemma {:induction false} Log2Bounds(n: nat)
    requires n >= 1
    ensures Pow2(Log2(n)) <= n < 2 * Pow2(Log2(n))
  {
    if n > 1 {
      Log2Bounds(n / 2);
    }
  }

  /** `Int.takeHighestOneBit` on a non-negative `Int`. */
  function HighestOneBit(n: nat): (r: nat)
    requires n < Two31
  {
    if n == 0 then 0 else Pow2(Log2(n))
  }

  /** Number of significant bits of an unsigned value. */
  function BitLength(u: nat): nat {
    if u == 0 then 0 else 1 + BitLength(u / 2)
  }

  lemma {:induction false} BitLengthOfPow2(j: nat)
    ensures BitLength(Pow2(j)) == j + 1
  {
    if j > 0 {
      BitLengthOfPow2(j - 1);
      assert Pow2(j) / 2 == Pow2(j - 1);
    }
  }

  /** `Int.countLeadingZeroBits`: leading zeros of the 32-bit pattern. */
  function CountLeadingZeros(x: int): int
    requires IsInt32(x)
  {
    var u := if x < 0 then x + Two32 else x;
    32 - BitLength(u)
  }

  /** `hashSize`: the highest one bit of the size, shifted left once, as a Kotlin `Int`. */
  function HashSize(mapSize: nat): int
    requires mapSize < Two31
  {
    ToInt32(HighestOneBit(mapSize) * 2)
  }

  /** `hashShift`: one more than the leading zeros of `hashSize`. */
  function HashShift(mapSize: nat): int
    requires mapSize < Two31
  {
    CountLeadingZeros(HashSize(mapSize)) + 1
  }

  /**
   * The size of the hash array is the least power of two strictly above the
   * map size, for sizes below 2^30; an empty map has none, and from 2^30 on
   * the shift overflows to `Int.MIN_VALUE`.
   */
  lemma HashSizeSpec(mapSize: nat)
    requires mapSize < Two31
    ensures mapSize == 0 ==> HashSize(mapSize) == 0
    ensures 1 <= mapSize < Two30 ==>
      HashSize(mapSize) == Pow2(Log2(mapSize) + 1) && mapSize < HashSize(mapSize) <= 2 * mapSize
    ensures Two30 <= mapSize ==> HashSize(mapSize) == -Two31
  {
    Pow2Values();
    if mapSize >= 1 {
      var k := Log2(mapSize);
      Log2Bounds(mapSize);
      if mapSize < Two30 {
        if k >= 30 {
          Pow2Monotone(30, k);
        }
        Pow2Monotone(k + 1, 30);
        assert HighestOneBit(mapSize) * 2 == Pow2(k + 1);
      } else {
        if k <= 29 {
          Pow2Monotone(k + 1, 30);
        }
        if k >= 31 {
          Pow2Monotone(31, k);
        }
        assert k == 30;
      }
    }
  }

  /**
   * `hashShift` is what turns a 32-bit hash into a hash-array index: for a
   * non-empty map below 2^30 entries, 2^(32 - hashShift) is exactly `hashSize`.
   */
  lemma HashShiftSpec(mapSize: nat)
    requires mapSize < Two31
    ensures mapSize == 0 ==> HashShift(mapSize) == 33
    ensures 1 <= mapSize < Two30 ==>
      2 <= HashShift(mapSize) <= 31 && Pow2(32 - HashShift(mapSize)) == HashSize(mapSize)
    ensures Two30 <= mapSize ==> HashShift(mapSize) == 1
  {
    HashSizeSpec(mapSize);
    Pow2Values();
    if mapSize >= 1 && mapSize < Two30 {
      var k := Log2(mapSize) + 1;
      BitLengthOfPow2(k);
      if k >= 31 {
        Pow2Monotone(30, k - 1);
        Log2Bounds(mapSize);
      }
      assert k >= 1;
    } else if mapSize >= Two30 {
      BitLengthOfPow2(31);
    }
  }

  /** Kotlin `ushr` on a 32-bit pattern: only the low five bits of the distance count. */
  function UShr(h: nat, distance: int): nat {
    var d := Pow2(ShiftCount(distance));
    QuotientIsNat(h, d);
    h / d
  }

  lemma QuotientIsNat(h: nat, d: nat)
    requires d >= 1
    ensures h / d >= 0
  {
  }

  /** The low five bits of a shift distance, the only ones a 32-bit shift uses. */
  function ShiftCount(distance: int): (s: nat)
    ensures s < 32
  {
    distance % 32
  }

  lemma DivBelow(h: nat, d: nat, q: nat)
    requires d >= 1 && h < q * d
    ensures h / d < q
  {
  }

  /**
   * A 32-bit hash code shifted right (unsigned) by `hashShift` always indexes
   * the hash array of a non-empty map.
   */
  lemma ShiftedHashInRange(mapSize: nat, h: nat)
    requires 1 <= mapSize < Two30
    requires h < Two32
    ensures UShr(h, HashShift(mapSize)) < HashSize(mapSize)
  {
    HashShiftSpec(mapSize);
    Pow2Values();
    var s := HashShift(mapSize);
    assert s % 32 == s;
    Pow2Add(32 - s, s);
    DivBelow(h, Pow2(s), HashSize(mapSize));
  }

  /** `[1, 2, ..., mapSize, 1, 2, ...]` with `hashSize` entries (none when `hashSize` is not positive). */
  function HashArray(mapSize: nat): (r: seq<int>)
    requires mapSize < Two31
    ensures |r| == if HashSize(mapSize) > 0 then HashSize(mapSize) else 0
  {
    Cycle(HashSize(mapSize), mapSize)
  }

  /** `(0 until n).map { it % m + 1 }`: empty when `n` is not positive. */
  function Cycle(n: int, m: nat): (r: seq<int>)
    requires n > 0 ==> m >= 1
    ensures |r| == if n > 0 then n else 0
  {
    if n <= 0 then [] else seq(n, i requires 0 <= i < n => i % m + 1)
  }

  lemma CycleCovers(n: int, m: nat)
    requires 1 <= m < n
    ensures forall i :: 0 <= i < n ==> 1 <= Cycle(n, m)[i] <= m
    ensures forall k :: 0 <= k < m ==> Cycle(n, m)[k] == k + 1
  {
    var a := Cycle(n, m);
    forall i | 0 <= i < n ensures 1 <= a[i] <= m {
      assert a[i] == i % m + 1;
    }
    forall k | 0 <= k < m ensures a[k] == k + 1 {
      assert a[k] == k % m + 1;
    }
  }

  /** `[1, 1, ..., 1]` with `mapSize` entries. */
  function PresenceArray(mapSize: nat): seq<int> {
    seq(mapSize, _ => 1)
  }

  /**
   * Every bucket of the hash array names a key (it is never the empty
   * marker 0), and every key index appears in some bucket.
   */
  lemma HashArrayCoversKeys(mapSize: nat)
    requires 1 <= mapSize < Two30
    ensures forall i :: 0 <= i < |HashArray(mapSize)| ==> 1 <= HashArray(mapSize)[i] <= mapSize
    ensures forall k :: 0 <= k < mapSize ==> k < |HashArray(mapSize)| && HashArray(mapSize)[k] == k + 1
  {
    HashSizeBounds(mapSize);
    var n := HashSize(mapSize);
    assert HashArray(mapSize) == Cycle(n, mapSize);
    CycleCovers(n, mapSize);
  }

  /**
   * Every bucket of the hash array names an entry that the presence array
   * marks as occupied, so a probe that reaches a key's bucket finds a live
   * entry rather than a removed one.
   */
  lemma BucketsNamePresentEntries(mapSize: nat)
    requires 1 <= mapSize < Two30
    ensures forall i :: 0 <= i < |HashArray(mapSize)| ==>
      0 <= HashArray(mapSize)[i] - 1 < |PresenceArray(mapSize)| && PresenceArray(mapSize)[HashArray(mapSize)[i] - 1] == 1
  {
    HashArrayCoversKeys(mapSize);
  }

  lemma HashSizeBounds(mapSize: nat)
    requires 1 <= mapSize < Two30
    ensures mapSize < HashSize(mapSize) <= 2 * mapSize
  {
    HashSizeSpec(mapSize);
  }

  /**
   * A lookup that starts at any bucket and steps downwards cyclically, as the
   * runtime `HashMap` probes, reaches the bucket of every key within
   * `maxProbeDistance` (twice the size) steps.
   */
  lemma EveryKeyWithinProbeDistance(mapSize: nat, start: int, k: nat)
    requires 1 <= mapSize < Two30
    requires 0 <= start < HashSize(mapSize)
    requires k < mapSize
    ensures |HashArray(mapSize)| > 0
    ensures exists p :: 0 <= p <= 2 * mapSize && ProbeHits(HashArray(mapSize), start, p, k)
  {
    HashSizeBounds(mapSize);
    var n := HashSize(mapSize);
    assert HashArray(mapSize) == Cycle(n, mapSize);
    CycleProbe(n, mapSize, start, k);
  }

  lemma CycleProbe(n: int, m: nat, start: int, k: nat)
    requires 1 <= m < n <= 2 * m
    requires 0 <= start < n
    requires k < m
    ensures exists p :: 0 <= p <= 2 * m && ProbeHits(Cycle(n, m), start, p, k)
  {
    var p := if start >= k then start - k else start - k + n;
    if start >= k {
      assert start - p == k;
      ModSmall(k, n);
    } else {
      assert start - p == k - n;
      ModShift(k, n);
    }
    CycleCovers(n, m);
    assert ProbeHits(Cycle(n, m), start, p, k);
  }

  lemma ModSmall(x: int, n: int)
    requires 0 <= x < n
    ensures x % n == x
  {
  }

  lemma ModShift(x: int, n: int)
    requires 0 <= x < n
    ensures (x - n) % n == x
  {
  }

  /** The `p`-th downward cyclic probe from `start` lands on the bucket of key index `k`. */
  predicate ProbeHits(buckets: seq<int>, start: int, p: nat, k: nat)
    requires |buckets| > 0
  {
    buckets[(start - p) % |buckets|] == k + 1
  }

  // ---------------------------------------------------------------------
  // Constant values and globals
  // ---------------------------------------------------------------------

  /** A class by its fully qualified name; a field by `<class name>.<field name>`. */
  type QualifiedName = string

  const ArrayClass: QualifiedName := "kotlin.Array"
  const IntArrayClass: QualifiedName := "kotlin.IntArray"
  const StringClass: QualifiedName := "kotlin.String"
  const IntClass: QualifiedName := "kotlin.Int"
  const ArrayListClass: QualifiedName := "kotlin.collections.ArrayList"
  const HashMapClass: QualifiedName := "kotlin.collections.HashMap"
  const HashSetClass: QualifiedName := "kotlin.collections.HashSet"

  /** A UTF-16 code unit, the element of a Kotlin `String`. */
  type CodeUnit = c: int | 0 <= c < 0x10000

  datatype LlvmType =
    | I8 | I16 | I32 | Ptr
    | StructType(fields: seq<LlvmType>)
    | ArrayType(element: LlvmType, length: nat)

  datatype ConstValue =
    | Int32(value: int)
    | Char16(code: CodeUnit)
    | NullPointer
      /** Reference to the object header at the start of the global with this index. */
    | ObjRef(global: nat)
      /** Reference to the alias with this index. */
    | AliasRef(alias: nat)
      /** The type-info pointer of a class, advanced by `byteOffset` bytes. */
    | TypeInfoRef(cls: QualifiedName, byteOffset: nat)
    | Struct(fields: seq<ConstValue>)
    | ConstArray(elementType: LlvmType, elements: seq<ConstValue>)

  function TypeOf(v: ConstValue): LlvmType {
    match v
    case Int32(_) => I32
    case Char16(_) => I16
    case Struct(fields) => StructType(seq(|fields|, i requires 0 <= i < |fields| => TypeOf(fields[i])))
    case ConstArray(t, elements) => ArrayType(t, |elements|)
    case _ => Ptr
  }

  datatype Global = Global(name: string, initializer: ConstValue, isConstant: bool)

  datatype Alias = Alias(name: string, target: ConstValue, weakLinkage: bool)

  /** The permanent-object tag: the type-info pointer plus one byte. */
  function PermanentTag(cls: QualifiedName): ConstValue {
    TypeInfoRef(cls, 1)
  }

  function ObjHeader(cls: QualifiedName): ConstValue {
    Struct([PermanentTag(cls)])
  }

  function ArrayHeader(cls: QualifiedName, length: nat): ConstValue {
    Struct([PermanentTag(cls), Int32(length)])
  }

  /** The type of the first element, or `i8` for an empty body. */
  function BodyElementType(elements: seq<ConstValue>): LlvmType {
    if |elements| == 0 then I8 else TypeOf(elements[0])
  }

  /** The initializer of a constant Kotlin array: header, then body. */
  function ArrayGlobal(cls: QualifiedName, elements: seq<ConstValue>): Global {
    Global("", Struct([ArrayHeader(cls, |elements|), ConstArray(BodyElementType(elements), elements)]), true)
  }

  /** The initializer of a constant instance: header, then the fields in order. */
  function Initializer(cls: QualifiedName, fields: seq<ConstValue>): ConstValue {
    Struct([ObjHeader(cls)] + fields)
  }

  function ObjectGlobal(cls: QualifiedName, fields: seq<ConstValue>): Global {
    Global("", Initializer(cls, fields), true)
  }

  /** Reads a constant array back: its class and elements, if the header's length matches the body. */
  function ArrayContents(g: Global): Option<(QualifiedName, seq<ConstValue>)> {
    var init := g.initializer;
    if init.Struct? && |init.fields| == 2 && init.fields[0].Struct? && init.fields[1].ConstArray? then
      var header := init.fields[0].fields;
      var body := init.fields[1].elements;
      if |header| == 2 && header[0].TypeInfoRef? && header[0].byteOffset == 1
         && header[1].Int32? && header[1].value == |body|
      then Some((header[0].cls, body))
      else None
    else None
  }

  /** Reads a constant instance back: its class and field values. */
  function ObjectContents(g: Global): Option<(QualifiedName, seq<ConstValue>)> {
    var init := g.initializer;
    if init.Struct? && |init.fields| >= 1 && init.fields[0].Struct? then
      var header := init.fields[0].fields;
      if |header| == 1 && header[0].TypeInfoRef? && header[0].byteOffset == 1
      then Some((header[0].cls, init.fields[1..]))
      else None
    else None
  }

  /** A constant array reads back as the class and elements it was built from. */
  lemma ArrayRoundTrip(cls: QualifiedName, elements: seq<ConstValue>)
    ensures ArrayContents(ArrayGlobal(cls, elements)) == Some((cls, elements))
    ensures ArrayGlobal(cls, elements).isConstant
  {
  }

  /** A constant instance reads back as the class and field values it was built from. */
  lemma ObjectRoundTrip(cls: QualifiedName, fields: seq<ConstValue>)
    ensures ObjectContents(ObjectGlobal(cls, fields)) == Some((cls, fields))
    ensures ObjectGlobal(cls, fields).isConstant
  {
    assert ([ObjHeader(cls)] + fields)[1..] == fields;
  }

  // ---------------------------------------------------------------------
  // Field order of class instances
  // ---------------------------------------------------------------------

  function Id(f: QualifiedName): QualifiedName {
    f
  }

  /**
   * The values of `values`, one per field of `fields`, in the order of each
   * field's first occurrence there (a linked map keeps first insertion order).
   */
  function InLayoutOrder(fields: seq<QualifiedName>, values: map<QualifiedName, ConstValue>): seq<ConstValue>
    requires forall f :: f in fields ==> f in values
  {
    var order := DistinctBy(fields, Id);
    DistinctBySpec(fields, Id);
    seq(|order|, k requires 0 <= k < |order| => values[order[k]])
  }

  /**
   * For a layout that names each field once, the k-th emitted value is the
   * value given for the k-th field, whatever order the values came in.
   */
  lemma InLayoutOrderSpec(fields: seq<QualifiedName>, values: map<QualifiedName, ConstValue>)
    requires forall f :: f in fields ==> f in values
    requires UniqueBy(fields, Id)
    ensures |InLayoutOrder(fields, values)| == |fields|
    ensures forall k :: 0 <= k < |fields| ==> InLayoutOrder(fields, values)[k] == values[fields[k]]
  {
    DistinctFromUnique(fields, Id, {});
  }

  /** One more field of the layout extends the order only if it is new. */
  lemma LayoutStep(prefix: seq<QualifiedName>, f: QualifiedName)
    ensures DistinctBy(prefix + [f], Id) == DistinctBy(prefix, Id) + (if f in prefix then [] else [f])
  {
    var d := DistinctBy(prefix, Id);
    DistinctFromSnoc(prefix, f, Id, {});
    DistinctBySpec(prefix, Id);
    if f in prefix {
      var j :| 0 <= j < |prefix| && prefix[j] == f;
      var i :| 0 <= i < |d| && Id(d[i]) == Id(prefix[j]);
      assert f in KeySet(d, Id);
    }
  }

  /**
   * Sorts field values into layout order the way `createConstKotlinClass`
   * does, by filling a linked map field by field.
   */
  method SortByLayout(classFields: seq<QualifiedName>, fieldValues: map<QualifiedName, ConstValue>)
    returns (values: seq<ConstValue>)
    requires forall f :: f in classFields ==> f in fieldValues
    ensures values == InLayoutOrder(classFields, fieldValues)
  {
    var sortedKeys: seq<QualifiedName> := [];
    var sorted: map<QualifiedName, ConstValue> := map[];
    for i := 0 to |classFields|
      invariant sortedKeys == DistinctBy(classFields[..i], Id)
      invariant sorted.Keys == set f | f in classFields[..i]
      invariant forall f :: f in sorted ==> sorted[f] == fieldValues[f]
    {
      var f := classFields[i];
      LayoutStep(classFields[..i], f);
      assert classFields[..i + 1] == classFields[..i] + [f];
      if f !in sorted {
        sortedKeys := sortedKeys + [f];
      }
      sorted := sorted[f := fieldValues[f]];
    }
    assert classFields[..|classFields|] == classFields;
    DistinctBySpec(classFields, Id);
    values := seq(|sortedKeys|, k requires 0 <= k < |sortedKeys| => sorted[sortedKeys[k]]);
  }

  // ---------------------------------------------------------------------
  // Names of content-addressed constants
  // ---------------------------------------------------------------------

  function Digit(d: nat): (c: char)
    requires d < 10
    ensures '0' <= c <= '9'
  {
    (48 + d) as char
  }

  function DigitValue(c: char): nat {
    if '0' <= c <= '9' then c as int - 48 else 0
  }

  /** Kotlin's decimal rendering of a non-negative number. */
  function NatToDecimal(n: nat): (r: string)
    ensures |r| >= 1
    ensures forall i :: 0 <= i < |r| ==> '0' <= r[i] <= '9'
  {
    if n < 10 then [Digit(n)] else NatToDecimal(n / 10) + [Digit(n % 10)]
  }

  /** Kotlin's `"$value"` for an `Int`: a minus sign for negatives, no leading zeros. */
  function IntToDecimal(v: int): string {
    if v < 0 then "-" + NatToDecimal(-v) else NatToDecimal(v)
  }

  function ParseNat(s: string): nat {
    if |s| == 0 then 0 else 10 * ParseNat(s[..|s| - 1]) + DigitValue(s[|s| - 1])
  }

  function ParseInt(s: string): int {
    if |s| > 0 && s[0] == '-' then -(ParseNat(s[1..]) as int) else ParseNat(s)
  }

  lemma {:induction false} ParseNatToDecimal(n: nat)
    ensures ParseNat(NatToDecimal(n)) == n
  {
    if n >= 10 {
      ParseNatToDecimal(n / 10);
      var s := NatToDecimal(n);
      assert s[..|s| - 1] == NatToDecimal(n / 10);
    }
  }

  /** Decimal rendering is undone by parsing. */
  lemma ParseIntToDecimal(v: int)
    ensures ParseInt(IntToDecimal(v)) == v
  {
    if v < 0 {
      ParseNatToDecimal(-v);
      assert IntToDecimal(v)[1..] == NatToDecimal(-v);
    } else {
      ParseNatToDecimal(v);
    }
  }

  /** The symbol of a boxed `Int` constant. */
  function KIntName(value: int): string {
    "kint:" + IntToDecimal(value)
  }

  /** The symbol of a string literal, named by the hash of its contents. */
  function KStrName(hashBase64: string): string {
    "kstr:" + hashBase64
  }

  /** Distinct `Int` constants get distinct symbols; equal ones share one. */
  lemma KIntNamesDistinct(a: int, b: int)
    ensures KIntName(a) == KIntName(b) <==> a == b
  {
    if KIntName(a) == KIntName(b) {
      ParseIntToDecimal(a);
      ParseIntToDecimal(b);
      assert KIntName(a)[5..] == IntToDecimal(a);
      assert KIntName(b)[5..] == IntToDecimal(b);
    }
  }

  /** The elements of an `IntArray` constant. */
  function Int32s(xs: seq<int>): seq<ConstValue> {
    seq(|xs|, i requires 0 <= i < |xs| => Int32(xs[i]))
  }

  /** Reads the integers back from constants, or none when one is not an `Int32`. */
  function Int32Payloads(vs: seq<ConstValue>): Option<seq<int>> {
    if vs == [] then Some([])
    else match (vs[0], Int32Payloads(vs[1..]))
      case (Int32(x), Some(rest)) => Some([x] + rest)
      case _ => None
  }

  /** The integers of an `IntArray` constant read back as they were given. */
  lemma {:induction false} Int32sRoundTrip(xs: seq<int>)
    ensures Int32Payloads(Int32s(xs)) == Some(xs)
    decreases |xs|
  {
    if xs != [] {
      assert Int32s(xs)[1..] == Int32s(xs[1..]);
      Int32sRoundTrip(xs[1..]);
      assert [xs[0]] + xs[1..] == xs;
    }
  }

  /** The elements of a `String` constant: one UTF-16 code unit each. */
  function Char16s(cs: seq<CodeUnit>): seq<ConstValue> {
    seq(|cs|, i requires 0 <= i < |cs| => Char16(cs[i]))
  }

  /** Reads the code units back from constants, or none when one is not a `Char16`. */
  function CodeUnitsOf(vs: seq<ConstValue>): Option<seq<CodeUnit>> {
    if vs == [] then Some([])
    else match (vs[0], CodeUnitsOf(vs[1..]))
      case (Char16(c), Some(rest)) => Some([c] + rest)
      case _ => None
  }

  /** A string literal's body reads back as exactly its code units. */
  lemma {:induction false} Char16sRoundTrip(cs: seq<CodeUnit>)
    ensures CodeUnitsOf(Char16s(cs)) == Some(cs)
    decreases |cs|
  {
    if cs != [] {
      assert Char16s(cs)[1..] == Char16s(cs[1..]);
      Char16sRoundTrip(cs[1..]);
      assert [cs[0]] + cs[1..] == cs;
    }
  }

  // ---------------------------------------------------------------------
  // Field maps of the collection classes
  // ---------------------------------------------------------------------

  function ArrayListFields(elementArray: ConstValue, length: int): (r: map<QualifiedName, ConstValue>)
    ensures r.Keys == ArrayListFieldNames()
  {
    map[ArrayListClass + ".array" := elementArray,
        ArrayListClass + ".offset" := Int32(0),
        ArrayListClass + ".length" := Int32(length),
        ArrayListClass + ".backing" := NullPointer]
  }

  /**
   * The eleven fields of a constant `HashMap`: the four arrays, a probe
   * distance of twice the size, `length` and `_size` equal to the size, no
   * cached views, and the hash shift.
   */
  function HashMapFields(keysArray: ConstValue, valuesArray: ConstValue, presenceArray: ConstValue,
                         hashArray: ConstValue, mapSize: nat): (r: map<QualifiedName, ConstValue>)
    requires mapSize < Two31
    ensures r.Keys == HashMapFieldNames()
  {
    map[HashMapClass + ".keysArray" := keysArray,
        HashMapClass + ".valuesArray" := valuesArray,
        HashMapClass + ".presenceArray" := presenceArray,
        HashMapClass + ".hashArray" := hashArray,
        HashMapClass + ".maxProbeDistance" := Int32(ToInt32(mapSize * 2)),
        HashMapClass + ".length" := Int32(mapSize),
        HashMapClass + "._size" := Int32(mapSize),
        HashMapClass + ".keysView" := NullPointer,
        HashMapClass + ".valuesView" := NullPointer,
        HashMapClass + ".entriesView" := NullPointer,
        HashMapClass + ".hashShift" := Int32(HashShift(mapSize))]
  }

  function ArrayListFieldNames(): set<QualifiedName> {
    {ArrayListClass + ".array", ArrayListClass + ".offset", ArrayListClass + ".length", ArrayListClass + ".backing"}
  }

  function HashMapFieldNames(): set<QualifiedName> {
    {HashMapClass + ".keysArray", HashMapClass + ".valuesArray", HashMapClass + ".presenceArray",
     HashMapClass + ".hashArray", HashMapClass + ".maxProbeDistance", HashMapClass + ".length",
     HashMapClass + "._size", HashMapClass + ".keysView", HashMapClass + ".valuesView",
     HashMapClass + ".entriesView", HashMapClass + ".hashShift"}
  }

  function HashSetFieldNames(): set<QualifiedName> {
    {HashSetClass + ".backing"}
  }

  function HashSetFields(backing: ConstValue): (r: map<QualifiedName, ConstValue>)
    ensures r.Keys == HashSetFieldNames()
  {
    map[HashSetClass + ".backing" := backing]
  }

  // ---------------------------------------------------------------------
  // The data section under construction
  // ---------------------------------------------------------------------

  /** The globals and aliases emitted so far into one module. */
  class StaticData {
    var globals: seq<Global>
    var aliases: seq<Alias>
    /** The qualified field names of each class, in the order its layout assigns them. */
    const layout: QualifiedName -> seq<QualifiedName>
    /** The global hash of a string's contents, rendered in base 64. */
    const hashBase64: seq<CodeUnit> -> string

    constructor(layout: QualifiedName -> seq<QualifiedName>, hashBase64: seq<CodeUnit> -> string)
      ensures globals == [] && aliases == []
      ensures this.layout == layout && this.hashBase64 == hashBase64
    {
      globals := [];
      aliases := [];
      this.layout := layout;
      this.hashBase64 := hashBase64;
    }

    /** Whether `names` are exactly the fields of `cls`, the assertion of `createConstKotlinClass`. */
    predicate FieldsMatch(cls: QualifiedName, names: set<QualifiedName>) {
      names == set f | f in layout(cls)
    }

    /** A constant global holding `init`, referenced through its object header. */
    method PlaceGlobal(name: string, init: ConstValue) returns (r: ConstValue)
      modifies this
      ensures globals == old(globals) + [Global(name, init, true)]
      ensures aliases == old(aliases)
      ensures r == ObjRef(|old(globals)|)
    {
      r := ObjRef(|globals|);
      globals := globals + [Global(name, init, true)];
    }

    method CreateConstKotlinArray(cls: QualifiedName, elements: seq<ConstValue>) returns (r: ConstValue)
      modifies this
      ensures globals == old(globals) + [ArrayGlobal(cls, elements)]
      ensures aliases == old(aliases)
      ensures r == ObjRef(|old(globals)|)
    {
      var header := ArrayHeader(cls, |elements|);
      var body := ConstArray(BodyElementType(elements), elements);
      r := PlaceGlobal("", Struct([header, body]));
    }

    method CreateConstKotlinObject(cls: QualifiedName, fields: seq<ConstValue>) returns (r: ConstValue)
      modifies this
      ensures globals == old(globals) + [ObjectGlobal(cls, fields)]
      ensures aliases == old(aliases)
      ensures r == ObjRef(|old(globals)|)
    {
      r := PlaceGlobal("", Initializer(cls, fields));
    }

    /**
     * An instance of `cls` from values given by field name: refused unless the
     * names are exactly the class's fields; otherwise the values are emitted
     * in layout order.
     */
    method CreateConstKotlinClass(cls: QualifiedName, fieldValues: map<QualifiedName, ConstValue>)
      returns (r: Result<ConstValue>)
      modifies this
      ensures aliases == old(aliases)
      ensures r.Err? <==> !FieldsMatch(cls, fieldValues.Keys)
      ensures r.Err? ==> globals == old(globals)
      ensures r.Ok? ==>
        globals == old(globals) + [ObjectGlobal(cls, InLayoutOrder(layout(cls), fieldValues))] &&
        r.value == ObjRef(|old(globals)|)
    {
      if !FieldsMatch(cls, fieldValues.Keys) {
        return Err(AssertionFailed("must specify values for every class field and nothing more"));
      }
      var values := SortByLayout(layout(cls), fieldValues);
      var obj := CreateConstKotlinObject(cls, values);
      r := Ok(obj);
    }
  
    method CreateConstArrayList(elementArray: ConstValue, length: int) returns (r: Result<ConstValue>)
      requires IsInt32(length)
      modifies this
      ensures aliases == old(aliases)
      ensures r.Err? <==> !FieldsMatch(ArrayListClass, ArrayListFieldNames())
      ensures r.Err? ==> globals == old(globals)
      ensures r.Ok? ==>
        globals == old(globals) +
          [ObjectGlobal(ArrayListClass, InLayoutOrder(layout(ArrayListClass), ArrayListFields(elementArray, length)))] &&
        r.value == ObjRef(|old(globals)|)
    {
      r := CreateConstKotlinClass(ArrayListClass, ArrayListFields(elementArray, length));
    }

    /** The globals that a constant map built from `keys` and `vals` occupies from index `base` on. */
    /** The keys, values (when given), presence and hash arrays of a constant map, in placement order. */
    function MapArrays(keys: seq<ConstValue>, vals: Option<seq<ConstValue>>): seq<Global>
      requires |keys| < Two31
    {
      [ArrayGlobal(ArrayClass, keys)] +
      (if vals.Some? then [ArrayGlobal(ArrayClass, vals.value)] else []) +
      [ArrayGlobal(IntArrayClass, Int32s(PresenceArray(|keys|))),
       ArrayGlobal(IntArrayClass, Int32s(HashArray(|keys|)))]
    }

    predicate MapLaidOut(gs: seq<Global>, base: nat, keys: seq<ConstValue>, vals: Option<seq<ConstValue>>)
      requires |keys| < Two31
      requires FieldsMatch(HashMapClass, HashMapFieldNames())
    {
      var v := if vals.Some? then 1 else 0;
      var valuesRef := if vals.Some? then ObjRef(base + 1) else NullPointer;
      var fields := HashMapFields(ObjRef(base), valuesRef, ObjRef(base + v + 1), ObjRef(base + v + 2), |keys|);
      |gs| == base + v + 4 &&
      gs[base] == ArrayGlobal(ArrayClass, keys) &&
      (vals.Some? ==> gs[base + 1] == ArrayGlobal(ArrayClass, vals.value)) &&
      gs[base + v + 1] == ArrayGlobal(IntArrayClass, Int32s(PresenceArray(|keys|))) &&
      gs[base + v + 2] == ArrayGlobal(IntArrayClass, Int32s(HashArray(|keys|))) &&
      gs[base + v + 3] == ObjectGlobal(HashMapClass, InLayoutOrder(layout(HashMapClass), fields))
    }

    /**
     * A constant `HashMap`: keys and values arrays in input order, a presence
     * array of ones and a hash array cycling through the key indices, then the
     * map object itself. Refused when the value list does not match the keys
     * or the class's fields are not the expected eleven.
     */
    method CreateConstMap(keys: seq<ConstValue>, vals: Option<seq<ConstValue>>) returns (r: Result<ConstValue>)
      requires |keys| < Two31
      modifies this
      ensures aliases == old(aliases)
      ensures old(globals) <= globals
      ensures r.Err? <==>
        (vals.Some? && |vals.value| != |keys|) || !FieldsMatch(HashMapClass, HashMapFieldNames())
      ensures vals.Some? && |vals.value| != |keys| ==> globals == old(globals)
      ensures r.Err? && !(vals.Some? && |vals.value| != |keys|) ==> globals == old(globals) + MapArrays(keys, vals)
      ensures r.Ok? ==> MapLaidOut(globals, |old(globals)|, keys, vals) && r.value == ObjRef(|globals| - 1)
    {
      if vals.Some? && |vals.value| != |keys| {
        return Err(AssertionFailed("vals == null || keys.size == vals.size"));
      }
      var mapSize := |keys|;
      var keysArray := CreateConstKotlinArray(ArrayClass, keys);
      var valsArray := NullPointer;
      if vals.Some? {
        valsArray := CreateConstKotlinArray(ArrayClass, vals.value);
      }
      var presenceArray := CreateConstKotlinArray(IntArrayClass, Int32s(PresenceArray(mapSize)));
      var hashArray := CreateConstKotlinArray(IntArrayClass, Int32s(HashArray(mapSize)));
      assert globals == old(globals) + MapArrays(keys, vals);
      var fields := HashMapFields(keysArray, valsArray, presenceArray, hashArray, mapSize);
      r := CreateConstKotlinClass(HashMapClass, fields);
    }

    /** A constant `HashSet`: a constant map without values, wrapped as the set's backing map. */
    method CreateConstSet(elements: seq<ConstValue>) returns (r: Result<ConstValue>)
      requires |elements| < Two31
      modifies this
      ensures aliases == old(aliases)
      ensures old(globals) <= globals
      ensures r.Err? <==>
        !FieldsMatch(HashMapClass, HashMapFieldNames()) || !FieldsMatch(HashSetClass, HashSetFieldNames())
      ensures !FieldsMatch(HashMapClass, HashMapFieldNames()) ==> globals == old(globals) + MapArrays(elements, None)
      ensures r.Ok? ==>
        var base := |old(globals)|;
        |globals| == base + 5 &&
        MapLaidOut(globals[..base + 4], base, elements, None) &&
        globals[base + 4] == ObjectGlobal(HashSetClass, InLayoutOrder(layout(HashSetClass), HashSetFields(ObjRef(base + 3)))) &&
        r.value == ObjRef(base + 4)
    {
      ghost var base := |globals|;
      var constMap := CreateConstMap(elements, None);
      if constMap.Err? {
        return Err(constMap.error);
      }
      ghost var withMap := globals;
      r := CreateConstKotlinClass(HashSetClass, HashSetFields(constMap.value));
      assert r.Ok? ==> globals[..base + 4] == withMap;
    }

    /** A boxed `Int` constant, named after its decimal value. */
    method CreateKotlinConstInt(value: int) returns (r: ConstValue)
      requires IsInt32(value)
      modifies this
      ensures globals == old(globals) + [Global(KIntName(value), Initializer(IntClass, [Int32(value)]), true)]
      ensures aliases == old(aliases)
      ensures r == ObjRef(|old(globals)|)
    {
      r := PlaceGlobal(KIntName(value), Initializer(IntClass, [Int32(value)]));
    }

    /** A string literal: a constant character array behind a weak alias named by the content hash. */
    method CreateKotlinStringLiteral(value: seq<CodeUnit>) returns (r: ConstValue)
      modifies this
      ensures globals == old(globals) + [ArrayGlobal(StringClass, Char16s(value))]
      ensures aliases == old(aliases) + [Alias(KStrName(hashBase64(value)), ObjRef(|old(globals)|), true)]
      ensures r == AliasRef(|old(aliases)|)
    {
      var name := KStrName(hashBase64(value));
      var objRef := CreateConstKotlinArray(StringClass, Char16s(value));
      r := AliasRef(|aliases|);
      aliases := aliases + [Alias(name, objRef, true)];
    }

    /**
     * The arrays of a constant map read back as the keys and values in the
     * order given, which is the map's iteration order; the map object reads
     * back as a `HashMap`.
     */
    lemma MapIterationOrder(gs: seq<Global>, base: nat, keys: seq<ConstValue>, vals: Option<seq<ConstValue>>)
      requires |keys| < Two31
      requires FieldsMatch(HashMapClass, HashMapFieldNames())
      requires MapLaidOut(gs, base, keys, vals)
      ensures ArrayContents(gs[base]) == Some((ArrayClass, keys))
      ensures vals.Some? ==> ArrayContents(gs[base + 1]) == Some((ArrayClass, vals.value))
      ensures ObjectContents(gs[|gs| - 1]).Some? && ObjectContents(gs[|gs| - 1]).value.0 == HashMapClass
    {
      var v := if vals.Some? then 1 else 0;
      var valuesRef := if vals.Some? then ObjRef(base + 1) else NullPointer;
      var fields := HashMapFields(ObjRef(base), valuesRef, ObjRef(base + v + 1), ObjRef(base + v + 2), |keys|);
      ArrayRoundTrip(ArrayClass, keys);
      if vals.Some? {
        ArrayRoundTrip(ArrayClass, vals.value);
      }
      ObjectRoundTrip(HashMapClass, InLayoutOrder(layout(HashMapClass), fields));
    }
  }
}
