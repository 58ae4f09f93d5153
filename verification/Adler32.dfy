/** The checksum of the zlib container (RFC 1950, sections 2.2 and 9): the unrolled, block-wise loop of
    the firmware against the byte-by-byte definition. */
module Adler32 {
  import opened Common

  const MODULUS: nat := 65521
  const INIT: nat := 1

  /** Most bytes that may be added before the sums must be reduced. */
  const BLOCK: nat := 5552

  type UInt32 = x: int | 0 <= x < 0x1_0000_0000

  datatype Sums = Sums(s1: nat, s2: nat)

  // ---------------------------------------------------------------- the definition

  /** One byte, reduced at once, as the standard defines it. */
  function ByteStep(s: Sums, b: Byte): Sums {
    var s1 := (s.s1 + b) % MODULUS;
    Sums(s1, (s.s2 + s1) % MODULUS)
  }

  function Fold(s: Sums, bytes: seq<Byte>): Sums {
    if bytes == [] then s else ByteStep(Fold(s, bytes[..|bytes| - 1]), bytes[|bytes| - 1])
  }

  function Unpack(adler: UInt32): Sums {
    Sums(adler % 0x1_0000, adler / 0x1_0000)
  }

  function Pack(s: Sums): nat {
    s.s2 * 0x1_0000 + s.s1
  }

  /** The checksum of `bytes` continued from `adler`. */
  function Adler(adler: UInt32, bytes: seq<Byte>): nat {
    Pack(Fold(Unpack(adler), bytes))
  }

  // ---------------------------------------------------------------- deferred reduction

  /** The same sums with no reduction at all. */
  function RawFold(s: Sums, bytes: seq<Byte>): (r: Sums)
    ensures r.s1 <= s.s1 + 255 * |bytes|
  {
    if bytes == [] then s
    else
      var r := RawFold(s, bytes[..|bytes| - 1]);
      var s1 := r.s1 + bytes[|bytes| - 1];
      Sums(s1, r.s2 + s1)
  }

  function Reduced(s: Sums): Sums {
    Sums(s.s1 % MODULUS, s.s2 % MODULUS)
  }

  lemma ModSum(a: nat, b: nat)
    ensures (a % MODULUS + b) % MODULUS == (a + b) % MODULUS
  {
    var q := a / MODULUS;
    assert a == MODULUS * q + a % MODULUS;
    ModShift(a % MODULUS + b, q);
  }

  lemma {:induction false} ModShift(x: nat, q: nat)
    ensures (x + MODULUS * q) % MODULUS == x % MODULUS
  {
    if q > 0 {
      ModShift(x, q - 1);
      assert x + MODULUS * q == x + MODULUS * (q - 1) + MODULUS;
    }
  }

  lemma ByteReduces(r: Sums, b: Byte)
    ensures Reduced(Sums(r.s1 + b, r.s2 + (r.s1 + b))) == ByteStep(Reduced(r), b)
  {
    ModSum(r.s1, b);
    ModSum(r.s1 + b, r.s2 % MODULUS);
    ModSum(r.s2, r.s1 + b);
  }

  /** Reducing only at the end gives the defined sums. */
  lemma {:induction false} DeferredReduction(s: Sums, bytes: seq<Byte>)
    ensures Reduced(RawFold(s, bytes)) == Fold(Reduced(s), bytes)
  {
    hide Reduced, ByteStep;
    if bytes != [] {
      var front, b := bytes[..|bytes| - 1], bytes[|bytes| - 1];
      DeferredReduction(s, front);
      ByteReduces(RawFold(s, front), b);
    }
  }

  /** Reducing before the first byte makes no difference either. */
  lemma {:induction false} FoldOfReduced(s: Sums, bytes: seq<Byte>)
    ensures bytes != [] ==> Fold(Reduced(s), bytes) == Fold(s, bytes)
  {
    if |bytes| == 1 {
      var b := bytes[0];
      assert bytes[..0] == [];
      assert Fold(s, []) == s && Fold(Reduced(s), []) == Reduced(s);
      ModSum(s.s1, b);
      ModSum(s.s2, (s.s1 + b) % MODULUS);
    } else if |bytes| > 1 {
      FoldOfReduced(s, bytes[..|bytes| - 1]);
    }
  }

  lemma {:induction false} FoldAppend(s: Sums, a: seq<Byte>, b: seq<Byte>)
    ensures Fold(s, a + b) == Fold(Fold(s, a), b)
    decreases |b|
  {
    if b == [] {
      assert a + b == a;
    } else {
      assert (a + b)[..|a + b| - 1] == a + b[..|b| - 1];
      FoldAppend(s, a, b[..|b| - 1]);
    }
  }

  lemma {:induction false} FoldRange(s: Sums, bytes: seq<Byte>)
    requires s.s1 < 0x1_0000 && s.s2 < 0x1_0000
    ensures Fold(s, bytes).s1 < 0x1_0000 && Fold(s, bytes).s2 < 0x1_0000
    ensures bytes != [] ==> Fold(s, bytes).s1 < MODULUS && Fold(s, bytes).s2 < MODULUS
  {
  }

  /** Checksums of consecutive pieces chain. */
  lemma Chains(adler: UInt32, a: seq<Byte>, b: seq<Byte>)
    ensures 0 <= Adler(adler, a) < 0x1_0000_0000
    ensures Adler(adler, a + b) == Adler(Adler(adler, a), b)
  {
    FoldRange(Unpack(adler), a);
    var f := Fold(Unpack(adler), a);
    Unpacked(f);
    hide Pack, Unpack, Fold;
    FoldAppend(Unpack(adler), a, b);
  }

  lemma Unpacked(s: Sums)
    requires s.s1 < 0x1_0000 && s.s2 < 0x1_0000
    ensures 0 <= Pack(s) < 0x1_0000_0000 && Unpack(Pack(s)) == s
  {
  }

  // ---------------------------------------------------------------- closed form

  function Sum(bytes: seq<Byte>): nat {
    if bytes == [] then 0 else Sum(bytes[..|bytes| - 1]) + bytes[|bytes| - 1]
  }

  /** Each byte weighted by the number of bytes from it to the end. */
  function WeightedSum(bytes: seq<Byte>): nat {
    if bytes == [] then 0 else WeightedSum(bytes[..|bytes| - 1]) + Sum(bytes)
  }

  lemma {:induction false} RawIsSums(s: Sums, bytes: seq<Byte>)
    ensures RawFold(s, bytes) == Sums(s.s1 + Sum(bytes), s.s2 + |bytes| * s.s1 + WeightedSum(bytes))
  {
    if bytes != [] {
      RawIsSums(s, bytes[..|bytes| - 1]);
    }
  }

  /** From the initial value 1: one more than the sum of the bytes, and the sum of all those partial sums. */
  lemma ClosedForm(bytes: seq<Byte>)
    ensures Adler(INIT, bytes)
         == (|bytes| + WeightedSum(bytes)) % 65521 * 0x1_0000 + (1 + Sum(bytes)) % 65521
  {
    assert Unpack(INIT) == Sums(1, 0);
    hide Fold, Sum, WeightedSum;
    FoldFromInit(bytes);
  }

  lemma FoldFromInit(bytes: seq<Byte>)
    ensures Fold(Sums(1, 0), bytes)
         == Sums((1 + Sum(bytes)) % 65521, (|bytes| + WeightedSum(bytes)) % 65521)
  {
    hide RawFold, Fold, Sum, WeightedSum;
    assert Reduced(Sums(1, 0)) == Sums(1, 0);
    DeferredReduction(Sums(1, 0), bytes);
    RawFromInit(bytes);
  }

  lemma RawFromInit(bytes: seq<Byte>)
    ensures RawFold(Sums(1, 0), bytes) == Sums(1 + Sum(bytes), |bytes| + WeightedSum(bytes))
  {
    hide *;
    RawIsSums(Sums(1, 0), bytes);
  }

  // ---------------------------------------------------------------- no overflow

  /** 255 n (n + 1) / 2 + n s1 + s2: the largest second sum n bytes can produce. */
  function Worst(s: Sums, n: nat): nat {
    if n == 0 then s.s2 else Worst(s, n - 1) + s.s1 + 255 * n
  }

  lemma {:induction false} WorstBounds(s: Sums, bytes: seq<Byte>)
    ensures RawFold(s, bytes).s2 <= Worst(s, |bytes|)
  {
    if bytes != [] { WorstBounds(s, bytes[..|bytes| - 1]); }
  }

  lemma {:induction false} WorstClosed(s: Sums, n: nat)
    ensures 2 * Worst(s, n) == 2 * s.s2 + 2 * (n * s.s1) + 255 * (n * (n + 1))
  {
    if n > 0 {
      WorstClosed(s, n - 1);
      assert n * s.s1 == (n - 1) * s.s1 + s.s1;
      assert n * (n + 1) == (n - 1) * n + 2 * n;
    }
  }

  lemma WorstMonotone(s: Sums, m: nat, n: nat)
    requires m <= n
    ensures Worst(s, m) <= Worst(s, n)
  {
  }

  /** No sum overflows 32 bits within a block, from any 16-bit halves whatever. */
  lemma BlockFits(s: Sums, bytes: seq<Byte>)
    requires s.s1 < 0x1_0000 && s.s2 < 0x1_0000 && |bytes| <= BLOCK
    ensures RawFold(s, bytes).s1 < 0x1_0000_0000 && RawFold(s, bytes).s2 < 0x1_0000_0000
  {
    WorstBounds(s, bytes);
    WorstMonotone(s, |bytes|, BLOCK);
    WorstClosed(s, BLOCK);
  }

  function AllOnes(n: nat): (bytes: seq<Byte>)
    ensures |bytes| == n
  {
    if n == 0 then [] else AllOnes(n - 1) + [255]
  }

  lemma {:induction false} WorstAttained(s: Sums, n: nat)
    ensures RawFold(s, AllOnes(n)) == Sums(s.s1 + 255 * n, Worst(s, n))
  {
    hide RawFold, AllOnes, Worst;
    OneMore(s, n);
    if n > 0 {
      WorstAttained(s, n - 1);
      RawNext(s, AllOnes(n - 1), 255);
    }
  }

  lemma OneMore(s: Sums, n: nat)
    ensures RawFold(s, AllOnes(0)) == s && Worst(s, 0) == s.s2
    ensures n > 0 ==> AllOnes(n) == AllOnes(n - 1) + [255] && Worst(s, n) == Worst(s, n - 1) + s.s1 + 255 * n
  {
  }

  /** The block length is the largest possible: one byte more overflows from some reduced sums. */
  lemma BlockIsLargest()
    ensures exists bytes: seq<Byte> | |bytes| == BLOCK + 1 ::
              RawFold(Sums(MODULUS - 1, MODULUS - 1), bytes).s2 >= 0x1_0000_0000
  {
    var start := Sums(MODULUS - 1, MODULUS - 1);
    WorstClosed(start, BLOCK + 1);
    WorstAttained(start, BLOCK + 1);
    assert |AllOnes(BLOCK + 1)| == BLOCK + 1;
  }

  // ---------------------------------------------------------------- the loop

  lemma RawNext(s: Sums, bytes: seq<Byte>, b: Byte)
    ensures RawFold(s, bytes + [b]) == var r := RawFold(s, bytes); Sums(r.s1 + b, r.s2 + r.s1 + b)
  {
    assert (bytes + [b])[..|bytes|] == bytes;
  }

  /** The next byte of a block fits the registers. */
  lemma NextFits(s: Sums, bytes: seq<Byte>, b: Byte)
    requires s.s1 < 0x1_0000 && s.s2 < 0x1_0000 && |bytes| < BLOCK
    ensures var r := RawFold(s, bytes);
            && RawFold(s, bytes + [b]) == Sums(r.s1 + b, r.s2 + r.s1 + b)
            && r.s1 + b < 0x1_0000_0000 && r.s2 + r.s1 + b < 0x1_0000_0000
  {
    RawNext(s, bytes, b);
    BlockFits(s, bytes + [b]);
  }

  /** The sums hold the first `i` bytes of the block at `p`. */
  ghost predicate Added(ptr: array<Byte>, p: nat, i: nat, start: Sums, s1: UInt32, s2: UInt32)
    reads ptr
  {
    p + i <= ptr.Length && Sums(s1, s2) == RawFold(start, ptr[p..p + i])
  }

  /** Adds byte `i` of the block at `p` to sums held in 32-bit registers. */
  method AddByte(ptr: array<Byte>, p: nat, i: nat, s1: UInt32, s2: UInt32, ghost start: Sums)
    returns (t1: UInt32, t2: UInt32)
    requires start.s1 < 0x1_0000 && start.s2 < 0x1_0000
    requires p + i < ptr.Length && i < BLOCK && Added(ptr, p, i, start, s1, s2)
    ensures Added(ptr, p, i + 1, start, t1, t2)
  {
    hide RawFold;
    NextFits(start, ptr[p..p + i], ptr[p + i]);
    assert ptr[p..p + (i + 1)] == ptr[p..p + i] + [ptr[p + i]];
    t1 := s1 + ptr[p + i];
    t2 := s2 + t1;
  }

  /** The unrolled body: bytes `i` to `i + 7` of the block at `p`. */
  method AddEight(ptr: array<Byte>, p: nat, i: nat, a1: UInt32, a2: UInt32, ghost start: Sums)
    returns (s1: UInt32, s2: UInt32)
    requires start.s1 < 0x1_0000 && start.s2 < 0x1_0000
    requires p + i + 7 < ptr.Length && i + 7 < BLOCK && Added(ptr, p, i, start, a1, a2)
    ensures Added(ptr, p, i + 8, start, s1, s2)
  {
    hide Added;
    s1, s2 := AddByte(ptr, p, i, a1, a2, start);
    s1, s2 := AddByte(ptr, p, i + 1, s1, s2, start);
    s1, s2 := AddByte(ptr, p, i + 2, s1, s2, start);
    s1, s2 := AddByte(ptr, p, i + 3, s1, s2, start);
    s1, s2 := AddByte(ptr, p, i + 4, s1, s2, start);
    s1, s2 := AddByte(ptr, p, i + 5, s1, s2, start);
    s1, s2 := AddByte(ptr, p, i + 6, s1, s2, start);
    s1, s2 := AddByte(ptr, p, i + 7, s1, s2, start);
  }

  /** One block from `p`: eight bytes at a time, then the rest one at a time. */
  method AddBlock(ptr: array<Byte>, p: nat, len: nat, a1: UInt32, a2: UInt32) returns (s1: UInt32, s2: UInt32)
    requires p + len <= ptr.Length && len <= BLOCK && a1 < 0x1_0000 && a2 < 0x1_0000
    ensures Sums(s1, s2) == RawFold(Sums(a1, a2), ptr[p..p + len])
  {
    s1, s2 := a1, a2;
    ghost var start := Sums(a1, a2);
    var i := 0;
    assert Added(ptr, p, 0, start, s1, s2);
    while i + 7 < len
      invariant i <= len && Added(ptr, p, i, start, s1, s2)
    {
      hide Added;
      s1, s2 := AddEight(ptr, p, i, s1, s2, start);
      i := i + 8;
    }
    while i < len
      invariant i <= len && Added(ptr, p, i, start, s1, s2)
    {
      hide Added;
      s1, s2 := AddByte(ptr, p, i, s1, s2, start);
      i := i + 1;
    }
  }

  lemma FoldReduces(s: Sums, bytes: seq<Byte>)
    ensures Reduced(Fold(Reduced(s), bytes)) == Fold(Reduced(s), bytes)
  {
  }

  /** A block and its reduction: the sums of the bytes before it become those of the bytes up to its end. */
  method AddReducedBlock(ptr: array<Byte>, p: nat, len: nat, a1: UInt32, a2: UInt32, ghost start: Sums)
    returns (s1: UInt32, s2: UInt32)
    requires p + len <= ptr.Length && len <= BLOCK && a1 < 0x1_0000 && a2 < 0x1_0000
    requires Reduced(Sums(a1, a2)) == Fold(Reduced(start), ptr[..p])
    ensures Sums(s1, s2) == Fold(Reduced(start), ptr[..p + len])
    ensures s1 < MODULUS && s2 < MODULUS
  {
    s1, s2 := AddBlock(ptr, p, len, a1, a2);
    s1, s2 := s1 % MODULUS, s2 % MODULUS;
    DeferredReduction(Sums(a1, a2), ptr[p..p + len]);
    assert ptr[..p + len] == ptr[..p] + ptr[p..p + len];
    FoldAppend(Reduced(start), ptr[..p], ptr[p..p + len]);
  }

  /** Taking the odd part off first leaves whole blocks, and a whole block can then always be taken. */
  lemma WholeBlocks(left: nat)
    ensures left % BLOCK <= left && (left - left % BLOCK) % BLOCK == 0
    ensures left > 0 && left % BLOCK == 0 ==> left >= BLOCK && (left - BLOCK) % BLOCK == 0
  {
    var q := left / BLOCK;
    assert left == BLOCK * q + left % BLOCK;
    Multiple(q);
    if q > 0 { Multiple(q - 1); assert BLOCK * q - BLOCK == BLOCK * (q - 1); }
  }

  lemma {:induction false} Multiple(q: nat)
    ensures (BLOCK * q) % BLOCK == 0
  {
    if q > 0 {
      Multiple(q - 1);
      assert BLOCK * q == BLOCK * (q - 1) + BLOCK;
    }
  }

  /** mz_adler32. The first block is what is left over after whole blocks, and is empty when nothing is. */
  method MzAdler32(adler: UInt32, ptr: array?<Byte>) returns (r: UInt32)
    ensures ptr == null ==> r == INIT
    ensures ptr != null ==> r == Adler(adler, ptr[..])
  {
    if ptr == null {
      return INIT;
    }
    ghost var start := Unpack(adler);
    var s1: UInt32, s2: UInt32 := adler % 0x1_0000, adler / 0x1_0000;
    var left := ptr.Length;
    var blockLen := left % BLOCK;
    ghost var begun := false;
    while left > 0
      invariant 0 <= left <= ptr.Length && s1 < 0x1_0000 && s2 < 0x1_0000
      invariant if begun then blockLen == BLOCK && left % BLOCK == 0 else blockLen == left % BLOCK && left == ptr.Length
      invariant Reduced(Sums(s1, s2)) == Fold(Reduced(start), ptr[..ptr.Length - left])
      invariant if begun then Sums(s1, s2) == Reduced(Sums(s1, s2)) && ptr.Length > 0 else Sums(s1, s2) == start
      decreases left, !begun
    {
      WholeBlocks(left);
      var p := ptr.Length - left;
      s1, s2 := AddReducedBlock(ptr, p, blockLen, s1, s2, start);
      FoldReduces(start, ptr[..p + blockLen]);
      left := left - blockLen;
      blockLen := BLOCK;
      begun := true;
    }
    assert ptr[..ptr.Length] == ptr[..];
    FoldOfReduced(start, ptr[..]);
    FoldRange(start, ptr[..]);
    r := s2 * 0x1_0000 + s1;
  }
}
