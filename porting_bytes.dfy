/** The byte and string routines of the portable runtime layer: the Wasm
    fallbacks of memcpy, memmove, memcmp, memset, strlen and strnlen, the naive
    memmem, and the line-ending trimmer of consoleReadUtf8. Memory is one
    array of bytes; a pointer is an offset into it, so overlapping ranges are
    represented exactly. */
module PortingBytes {
  import opened Wrappers

  type Byte = b: int | 0 <= b < 256

  /** The value of a byte read as plain `char`, which is signed on Wasm. */
  function PlainChar(b: Byte): (c: int)
    ensures -128 <= c < 128
    ensures c == b || c == b - 256
  {
    if b >= 128 then b - 256 else b
  }

  /** Conversion of an `int` argument to `char` keeps the low eight bits. */
  function ToByte(c: int): (b: Byte)
    ensures (b - c) % 256 == 0
  {
    c % 256
  }

  // ---------------------------------------------------------------- memcpy

  /** Forward byte copy of `n` bytes from offset `src` to offset `dst`. The
      forward loop is only correct when it never reads a byte it has already
      written: the ranges are disjoint or the destination starts no later than
      the source (the case memmove hands it). */
  method MemCpy(mem: array<Byte>, dst: nat, src: nat, n: nat)
    requires dst + n <= mem.Length && src + n <= mem.Length
    requires dst <= src || src + n <= dst
    modifies mem
    ensures mem[dst..dst + n] == old(mem[src..src + n])
    ensures mem[..dst] == old(mem[..dst]) && mem[dst + n..] == old(mem[dst + n..])
  {
    var i := 0;
    while i != n
      invariant 0 <= i <= n
      invariant mem[dst..dst + i] == old(mem[src..src + i])
      invariant mem[..dst] == old(mem[..dst]) && mem[dst + i..] == old(mem[dst + i..])
    {
      assert mem[src + i] == old(mem[src + i]) by {
        if src + n <= dst {
          assert mem[..dst][src + i] == old(mem[..dst])[src + i];
        } else {
          assert mem[dst + i..][src - dst] == old(mem[dst + i..])[src - dst];
        }
      }
      mem[dst + i] := mem[src + i];
      i := i + 1;
      assert mem[dst..dst + i] == mem[dst..dst + i - 1] + [mem[dst + i - 1]];
      assert old(mem[src..src + i]) == old(mem[src..src + i - 1]) + [old(mem[src + i - 1])];
    }
  }

  // --------------------------------------------------------------- memmove

  /** memmove copies backwards when the source lies below the destination and
      forwards otherwise, so the destination receives the ORIGINAL source
      bytes even when the two ranges overlap. */
  method MemMove(mem: array<Byte>, dst: nat, src: nat, len: nat)
    requires dst + len <= mem.Length && src + len <= mem.Length
    modifies mem
    ensures mem[dst..dst + len] == old(mem[src..src + len])
    ensures mem[..dst] == old(mem[..dst]) && mem[dst + len..] == old(mem[dst + len..])
  {
    if src < dst {
      var i := len;
      while i != 0
        invariant 0 <= i <= len
        invariant mem[dst + i..dst + len] == old(mem[src + i..src + len])
        invariant mem[..dst + i] == old(mem[..dst + i]) && mem[dst + len..] == old(mem[dst + len..])
      {
        assert mem[src + i - 1] == old(mem[src + i - 1]) by {
          assert mem[..dst + i][src + i - 1] == old(mem[..dst + i])[src + i - 1];
        }
        mem[dst + i - 1] := mem[src + i - 1];
        i := i - 1;
        assert mem[dst + i..dst + len] == [mem[dst + i]] + mem[dst + i + 1..dst + len];
        assert old(mem[src + i..src + len]) == [old(mem[src + i])] + old(mem[src + i + 1..src + len]);
      }
    } else {
      MemCpy(mem, dst, src, len);
    }
  }

  // ---------------------------------------------------------------- memset

  /** memset writes the low byte of `c` into exactly `len` bytes from `b`. */
  method MemSet(mem: array<Byte>, b: nat, c: int, len: nat)
    requires b + len <= mem.Length
    modifies mem
    ensures forall k :: b <= k < b + len ==> mem[k] == ToByte(c)
    ensures mem[..b] == old(mem[..b]) && mem[b + len..] == old(mem[b + len..])
  {
    var i := 0;
    while i != len
      invariant 0 <= i <= len
      invariant forall k :: b <= k < b + i ==> mem[k] == ToByte(c)
      invariant mem[..b] == old(mem[..b]) && mem[b + i..] == old(mem[b + i..])
    {
      mem[b + i] := ToByte(c);
      i := i + 1;
    }
  }

  // ---------------------------------------------------------------- memcmp

  /** The first `n` bytes at `o1` in `s1` equal those at `o2` in `s2`. */
  predicate EqualRange(s1: array<Byte>, o1: nat, s2: array<Byte>, o2: nat, n: nat)
    requires o1 + n <= s1.Length && o2 + n <= s2.Length
    reads s1, s2
  {
    s1[o1..o1 + n] == s2[o2..o2 + n]
  }

  /** memcmp as written: the difference of the first differing bytes, each
      read as plain (signed) `char`. */
  method MemCmpAsWritten(s1: array<Byte>, o1: nat, s2: array<Byte>, o2: nat, n: nat) returns (r: int)
    requires o1 + n <= s1.Length && o2 + n <= s2.Length
    ensures r == 0 <==> EqualRange(s1, o1, s2, o2, n)
    ensures r != 0 ==> exists i :: 0 <= i < n && EqualRange(s1, o1, s2, o2, i) &&
                               r == PlainChar(s1[o1 + i]) - PlainChar(s2[o2 + i])
  {
    var i := 0;
    while i != n
      invariant 0 <= i <= n
      invariant EqualRange(s1, o1, s2, o2, i)
    {
      if s1[o1 + i] != s2[o2 + i] {
        r := PlainChar(s1[o1 + i]) - PlainChar(s2[o2 + i]);
        assert r != 0;
        assert !EqualRange(s1, o1, s2, o2, n) by { assert s1[o1..o1 + n][i] != s2[o2..o2 + n][i]; }
        return;
      }
      assert s1[o1..o1 + i + 1] == s1[o1..o1 + i] + [s1[o1 + i]];
      assert s2[o2..o2 + i + 1] == s2[o2..o2 + i] + [s2[o2 + i]];
      i := i + 1;
    }
    r := 0;
  }

  /** Two bytes that differ, read as plain `char`, can order the other way
      round from the unsigned comparison section 7.24.4 of ISO/IEC 9899:2011
      requires: 0x80 is above 0x01 as `unsigned char`, below it as signed `char`. */
  lemma PlainCharOrderDisagrees()
    ensures 0x80 > 0x01 && PlainChar(0x80) - PlainChar(0x01) < 0
  {
  }

  /** memcmp as the C standard defines it: bytes compared as `unsigned char`. */
  method MemCmp(s1: array<Byte>, o1: nat, s2: array<Byte>, o2: nat, n: nat) returns (r: int)
    requires o1 + n <= s1.Length && o2 + n <= s2.Length
    ensures r == 0 <==> EqualRange(s1, o1, s2, o2, n)
    ensures r != 0 ==> exists i :: 0 <= i < n && EqualRange(s1, o1, s2, o2, i) &&
                               r == s1[o1 + i] as int - s2[o2 + i] as int
    ensures r < 0 <==> LexLess(s1[o1..o1 + n], s2[o2..o2 + n])
  {
    var i := 0;
    while i != n
      invariant 0 <= i <= n
      invariant EqualRange(s1, o1, s2, o2, i)
    {
      if s1[o1 + i] != s2[o2 + i] {
        r := s1[o1 + i] as int - s2[o2 + i] as int;
        assert s1[o1..o1 + n][..i] == s1[o1..o1 + i] && s2[o2..o2 + n][..i] == s2[o2..o2 + i];
        LexLessAtFirstDifference(s1[o1..o1 + n], s2[o2..o2 + n], i);
        assert !EqualRange(s1, o1, s2, o2, n) by { assert s1[o1..o1 + n][i] != s2[o2..o2 + n][i]; }
        return;
      }
      assert s1[o1..o1 + i + 1] == s1[o1..o1 + i] + [s1[o1 + i]];
      assert s2[o2..o2 + i + 1] == s2[o2..o2 + i] + [s2[o2 + i]];
      i := i + 1;
    }
    r := 0;
    LexLessIrreflexive(s1[o1..o1 + n]);
  }

  /** Unsigned lexicographic order on equal-length byte strings. */
  predicate LexLess(a: seq<Byte>, b: seq<Byte>)
    requires |a| == |b|
  {
    exists i :: 0 <= i < |a| && a[..i] == b[..i] && a[i] < b[i]
  }

  lemma LexLessIrreflexive(a: seq<Byte>)
    ensures !LexLess(a, a)
  {
  }

  /** At the first differing position the lexicographic order is decided by
      the bytes there. */
  lemma LexLessAtFirstDifference(a: seq<Byte>, b: seq<Byte>, i: nat)
    requires |a| == |b| && i < |a|
    requires a[..i] == b[..i] && a[i] != b[i]
    ensures LexLess(a, b) <==> a[i] < b[i]
  {
    if LexLess(a, b) {
      var j :| 0 <= j < |a| && a[..j] == b[..j] && a[j] < b[j];
    }
  }

  // ------------------------------------------------------- strlen, strnlen

  /** Index of the first zero byte at or after `from`, given there is one. */
  function FirstZeroFrom(s: seq<Byte>, from: nat): (k: nat)
    requires from <= |s| && exists j :: from <= j < |s| && s[j] == 0
    ensures from <= k < |s| && s[k] == 0
    ensures forall j :: from <= j < k ==> s[j] != 0
    decreases |s| - from
  {
    if s[from] == 0 then from else FirstZeroFrom(s, from + 1)
  }

  /** strlen returns the index of the first zero byte; the string must be
      zero-terminated inside the buffer. */
  method StrLen(s: array<Byte>) returns (r: nat)
    requires exists j :: 0 <= j < s.Length && s[j] == 0
    ensures r < s.Length && s[r] == 0
    ensures forall j :: 0 <= j < r ==> s[j] != 0
  {
    r := 0;
    while s[r] != 0
      invariant r < s.Length
      invariant forall j :: 0 <= j < r ==> s[j] != 0
      decreases s.Length - r
    {
      r := r + 1;
      assert r < s.Length by {
        var z :| 0 <= z < s.Length && s[z] == 0;
        assert z >= r;
      }
    }
  }

  /** The reads of strnlen as written stay inside the buffer: it examines the
      bytes 0..maxlen INCLUSIVE until it meets a zero. */
  ghost predicate StrNLenAsWrittenInBounds(s: seq<Byte>, maxlen: nat) {
    maxlen < |s| || exists j :: 0 <= j <= maxlen && j < |s| && s[j] == 0
  }

  /** The reads strnlen may make under its POSIX contract: never more than
      `maxlen` bytes. */
  ghost predicate StrNLenPosixInBounds(s: seq<Byte>, maxlen: nat) {
    maxlen <= |s| || exists j :: 0 <= j < maxlen && j < |s| && s[j] == 0
  }

  /** strnlen as written: the first zero among indices 0..maxlen, or maxlen. */
  method StrNLenAsWritten(s: array<Byte>, maxlen: nat) returns (r: nat)
    requires StrNLenAsWrittenInBounds(s[..], maxlen)
    ensures r <= maxlen
    ensures forall j :: 0 <= j < r ==> j < s.Length && s[j] != 0
    ensures r < maxlen ==> r < s.Length && s[r] == 0
  {
    var i := 0;
    while i <= maxlen
      invariant 0 <= i <= maxlen + 1
      invariant forall j :: 0 <= j < i ==> j < s.Length && s[j] != 0
      invariant i <= maxlen ==> i < s.Length
    {
      if s[i] == 0 {
        return i;
      }
      i := i + 1;
    }
    r := maxlen;
  }

  /** A one-byte buffer without a terminator satisfies strnlen's contract for
      maxlen 1, yet the loop as written reads index 1, past the buffer. */
  lemma StrNLenReadsPastBound()
    ensures StrNLenPosixInBounds([65], 1) && !StrNLenAsWrittenInBounds([65], 1)
  {
  }

  /** strnlen reading only indices below maxlen, as POSIX specifies it. */
  method StrNLen(s: array<Byte>, maxlen: nat) returns (r: nat)
    requires StrNLenPosixInBounds(s[..], maxlen)
    ensures r <= maxlen
    ensures forall j :: 0 <= j < r ==> j < s.Length && s[j] != 0
    ensures r < maxlen ==> r < s.Length && s[r] == 0
  {
    var i := 0;
    while i < maxlen
      invariant 0 <= i <= maxlen
      invariant forall j :: 0 <= j < i ==> j < s.Length && s[j] != 0
      invariant i < maxlen ==> i < s.Length
    {
      if s[i] == 0 {
        return i;
      }
      i := i + 1;
    }
    r := maxlen;
  }

  // ---------------------------------------------------------------- memmem

  /** The `littleLen` bytes of `little` occur in `big` at offset `i`. */
  predicate OccursAt(big: array<Byte>, i: nat, little: array<Byte>, littleLen: nat)
    requires i + littleLen <= big.Length && littleLen <= little.Length
    reads big, little
  {
    EqualRange(little, 0, big, i, littleLen)
  }

  /** The naive memmem: the smallest offset at which the needle occurs within
      the first `bigLen` bytes of `big`, or None. */
  method MemMem(big: array<Byte>, bigLen: nat, little: array<Byte>, littleLen: nat) returns (r: Option<nat>)
    requires bigLen <= big.Length && littleLen <= little.Length
    ensures r.Some? ==> r.value + littleLen <= bigLen && OccursAt(big, r.value, little, littleLen)
    ensures r.Some? ==> forall j :: 0 <= j < r.value ==> !OccursAt(big, j, little, littleLen)
    ensures r.None? ==> forall j :: 0 <= j && j + littleLen <= bigLen ==> !OccursAt(big, j, little, littleLen)
  {
    var i := 0;
    while i + littleLen <= bigLen
      invariant forall j :: 0 <= j < i && j + littleLen <= bigLen ==> !OccursAt(big, j, little, littleLen)
      decreases bigLen - i
    {
      var c := MemCmp(little, 0, big, i, littleLen);
      if c == 0 {
        return Some(i);
      }
      i := i + 1;
    }
    r := None;
  }

  /** An empty needle is found at offset 0. */
  lemma EmptyNeedleAtZero(big: array<Byte>, little: array<Byte>)
    ensures OccursAt(big, 0, little, 0)
  {
  }

  // -------------------------------------------------------- consoleReadUtf8

  predicate IsLineEnd(b: Byte) {
    b == 10 || b == 13
  }

  /** Length left after dropping the trailing run of '\n' and '\r' bytes. */
  function TrimmedLength(s: seq<Byte>): (r: nat)
    ensures r <= |s|
  {
    if |s| > 0 && IsLineEnd(s[|s| - 1]) then TrimmedLength(s[..|s| - 1]) else |s|
  }

  /** What remains does not end in a line ending, and everything removed is
      one. */
  lemma {:induction false} TrimmedLengthSpec(s: seq<Byte>)
    ensures TrimmedLength(s) == 0 || !IsLineEnd(s[TrimmedLength(s) - 1])
    ensures forall k :: TrimmedLength(s) <= k < |s| ==> IsLineEnd(s[k])
  {
    if |s| > 0 && IsLineEnd(s[|s| - 1]) {
      TrimmedLengthSpec(s[..|s| - 1]);
      assert forall k :: 0 <= k < |s| - 1 ==> s[..|s| - 1][k] == s[k];
    }
  }

  /** consoleReadUtf8 after fgets has filled `buf`: -1 when nothing was read;
      otherwise the trailing line endings of the zero-terminated line are
      overwritten with zeros and the remaining length is returned. fgets itself
      is input and is represented by `lineRead` and the bytes it left in `buf`. */
  method ConsoleReadUtf8(buf: array<Byte>, lineRead: bool) returns (r: int)
    requires lineRead ==> exists j :: 0 <= j < buf.Length && buf[j] == 0
    modifies buf
    ensures !lineRead ==> r == -1 && buf[..] == old(buf[..])
    ensures lineRead ==> var len := FirstZeroFrom(old(buf[..]), 0);
      r == TrimmedLength(old(buf[..len])) &&
      buf[..r] == old(buf[..r]) &&
      (forall k :: r <= k < len ==> buf[k] == 0) &&
      buf[len..] == old(buf[len..])
  {
    if !lineRead {
      return -1;
    }
    var length := StrLen(buf);
    ghost var len := length;
    ghost var line := buf[..len];
    assert FirstZeroFrom(buf[..], 0) == len by {
      assert forall j :: 0 <= j < len ==> buf[..][j] != 0;
    }
    var current := length - 1;
    var isTrimming := true;
    assert line[..length] == line;
    while current >= 0 && isTrimming
      invariant -1 <= current < length <= len
      invariant current == length - 1 || (!isTrimming && current == length - 2)
      invariant isTrimming ==> TrimmedLength(line) == TrimmedLength(line[..length])
      invariant !isTrimming ==> TrimmedLength(line) == length
      invariant buf[..length] == line[..length]
      invariant forall k :: length <= k < len ==> buf[k] == 0
      invariant buf[len..] == old(buf[len..])
      decreases current + 1
    {
      if IsLineEnd(buf[current]) {
        assert line[..length][..length - 1] == line[..length - 1];
        buf[current] := 0;
        length := length - 1;
      } else {
        isTrimming := false;
      }
      current := current - 1;
    }
    if isTrimming {
      assert length == 0;
    }
    r := length;
  }
}
