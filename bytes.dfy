/** Fixed-width big-endian readers and writer over byte buffers, and the
    CRC-32 used for the blob header. Bytes are the integers 0..255; the
    shift-and-or of the readers over disjoint bytes is written as the
    equal radix sum, and the shift-and-mask of the writer as division and
    remainder. */
module Bytes {

  /** An unsigned char. */
  newtype byte = x: int | 0 <= x < 256

  const Two16: nat := 0x1_0000
  const Two32: nat := 0x1_0000_0000
  const Two64: nat := 0x1_0000_0000_0000_0000

  /** The unsigned value of `s` read as a big-endian number: the reference
      the fixed-width readers are checked against. */
  function BeValue(s: seq<byte>): nat
  {
    if s == [] then 0 else BeValue(s[..|s| - 1]) * 256 + s[|s| - 1] as nat
  }

  function Pow256(n: nat): (r: nat)
    ensures r > 0
  {
    if n == 0 then 1 else 256 * Pow256(n - 1)
  }

  /** The value of a concatenation: the high part shifted past the low part. */
  lemma {:induction false} BeValueAppend(s: seq<byte>, t: seq<byte>)
    ensures BeValue(s + t) == BeValue(s) * Pow256(|t|) + BeValue(t)
  {
    if t == [] {
      assert s + t == s;
    } else {
      var t', c := t[..|t| - 1], t[|t| - 1] as nat;
      assert (s + t)[..|s + t| - 1] == s + t';
      BeValueAppend(s, t');
      var a, p, b := BeValue(s), Pow256(|t'|), BeValue(t');
      assert BeValue(s + t) == (a * p + b) * 256 + c;
      assert BeValue(t) == b * 256 + c;
      assert Pow256(|t|) == p * 256;
      Regroup(a, p, b, c);
    }
  }

  lemma Regroup(a: nat, p: nat, b: nat, c: nat)
    ensures (a * p + b) * 256 + c == a * (p * 256) + (b * 256 + c)
  {
  }

  /** A value of `n` bytes is below 256^n. */
  lemma {:induction false} BeValueBound(s: seq<byte>)
    ensures BeValue(s) < Pow256(|s|)
  {
    if s != [] {
      BeValueBound(s[..|s| - 1]);
      var a, p := BeValue(s[..|s| - 1]), Pow256(|s| - 1);
      BoundStep(a, p, s[|s| - 1] as nat);
    }
  }

  lemma BoundStep(a: nat, p: nat, c: nat)
    requires a < p && c < 256
    ensures a * 256 + c < 256 * p
  {
  }

  lemma BeValueSplit(s: seq<byte>, k: nat)
    requires k <= |s|
    ensures BeValue(s) == BeValue(s[..k]) * Pow256(|s| - k) + BeValue(s[k..])
  {
    assert s == s[..k] + s[k..];
    BeValueAppend(s[..k], s[k..]);
  }

  /** read_be16: two bytes at `at`, most significant first. */
  function ReadBe16(buf: seq<byte>, at: nat): (v: nat)
    requires at + 2 <= |buf|
    ensures v < 0x1_0000
  {
    buf[at] as nat * 0x100 + buf[at + 1] as nat
  }

  /** read_be32: four bytes at `at`, most significant first. */
  function ReadBe32(buf: seq<byte>, at: nat): (v: nat)
    requires at + 4 <= |buf|
    ensures v < 0x1_0000_0000
  {
    buf[at] as nat * 0x100_0000 + buf[at + 1] as nat * 0x1_0000 +
    buf[at + 2] as nat * 0x100 + buf[at + 3] as nat
  }

  /** read_be64: eight bytes at `at`, most significant first. */
  function ReadBe64(buf: seq<byte>, at: nat): (v: nat)
    requires at + 8 <= |buf|
    ensures v < 0x1_0000_0000_0000_0000
  {
    buf[at] as nat * 0x100_0000_0000_0000 + buf[at + 1] as nat * 0x1_0000_0000_0000 +
    buf[at + 2] as nat * 0x100_0000_0000 + buf[at + 3] as nat * 0x1_0000_0000 +
    buf[at + 4] as nat * 0x100_0000 + buf[at + 5] as nat * 0x1_0000 +
    buf[at + 6] as nat * 0x100 + buf[at + 7] as nat
  }

  /** read_be16 yields the big-endian value of its two bytes, so a 16-bit
      field is below 2^16. */
  lemma ReadBe16Value(buf: seq<byte>, at: nat)
    requires at + 2 <= |buf|
    ensures ReadBe16(buf, at) == BeValue(buf[at..at + 2]) < Two16
  {
    var s := buf[at..at + 2];
    assert s[..1][..0] == [];
    assert BeValue(s[..1]) == buf[at] as nat;
  }

  /** read_be32 yields the big-endian value of its four bytes. */
  lemma ReadBe32Value(buf: seq<byte>, at: nat)
    requires at + 4 <= |buf|
    ensures ReadBe32(buf, at) == BeValue(buf[at..at + 4]) < Two32
  {
    var s := buf[at..at + 4];
    ReadBe16Value(buf, at);
    ReadBe16Value(buf, at + 2);
    BeValueSplit(s, 2);
    assert s[..2] == buf[at..at + 2];
    assert s[2..] == buf[at + 2..at + 4];
    assert Pow256(2) == Two16;
  }

  /** read_be64 yields the big-endian value of its eight bytes. */
  lemma ReadBe64Value(buf: seq<byte>, at: nat)
    requires at + 8 <= |buf|
    ensures ReadBe64(buf, at) == BeValue(buf[at..at + 8]) < Two64
  {
    var s := buf[at..at + 8];
    ReadBe32Value(buf, at);
    ReadBe32Value(buf, at + 4);
    BeValueSplit(s, 4);
    assert s[..4] == buf[at..at + 4];
    assert s[4..] == buf[at + 4..at + 8];
    assert Pow256(4) == Two32;
  }

  /** Byte `k` (0 = least significant) of `v`. */
  function ByteOf(v: nat, k: nat): byte
  {
    ((v / Pow256(k)) % 256) as byte
  }

  /** The eight bytes write_be64 stores for `v`, most significant first. */
  function Be64Bytes(v: nat): (b: seq<byte>)
    ensures |b| == 8
  {
    [ByteOf(v, 7), ByteOf(v, 6), ByteOf(v, 5), ByteOf(v, 4),
     ByteOf(v, 3), ByteOf(v, 2), ByteOf(v, 1), ByteOf(v, 0)]
  }

  /** write_be64: overwrite buf[0..8] with `v` big-endian; the rest of the
      buffer is left alone. */
  method WriteBe64(buf: array<byte>, v: nat)
    requires buf.Length >= 8 && v < Two64
    modifies buf
    ensures buf[..] == Be64Bytes(v) + old(buf[8..])
  {
    ghost var rest := buf[8..];
    buf[0] := ByteOf(v, 7);
    buf[1] := ByteOf(v, 6);
    buf[2] := ByteOf(v, 5);
    buf[3] := ByteOf(v, 4);
    buf[4] := ByteOf(v, 3);
    buf[5] := ByteOf(v, 2);
    buf[6] := ByteOf(v, 1);
    buf[7] := ByteOf(v, 0);
    assert buf[..8] == Be64Bytes(v);
    assert buf[8..] == rest;
    assert buf[..] == buf[..8] + buf[8..];
  }

  /** Peeling the low byte off `v`: its higher bytes are those of v / 256. */
  lemma ByteOfShift(v: nat, k: nat)
    ensures ByteOf(v, k + 1) == ByteOf(v / 256, k)
  {
    DivDiv(v, 256, Pow256(k));
  }

  lemma DivDiv(v: nat, a: nat, b: nat)
    requires a > 0 && b > 0
    ensures v / (a * b) == (v / a) / b
  {
    var q, r := v / a, v % a;
    var q2, r2 := q / b, q % b;
    assert v == q * a + r;
    assert q == q2 * b + r2;
    Regroup2(q2, b, r2, a, r);
    RemainderBound(r2, b, r, a);
    DivUnique(v, a * b, q2, r2 * a + r);
  }

  lemma RemainderBound(r2: nat, b: nat, r: nat, a: nat)
    requires r2 < b && r < a
    ensures r2 * a + r < a * b
  {
    MulLe(r2, b - 1, a);
    MulSub(b, 1, a);
  }

  lemma Regroup2(q2: nat, b: nat, r2: nat, a: nat, r: nat)
    ensures (q2 * b + r2) * a + r == q2 * (a * b) + (r2 * a + r)
  {
  }

  lemma MulLe(x: nat, y: nat, a: nat)
    requires x <= y
    ensures x * a <= y * a
  {
  }

  lemma DivUnique(v: nat, d: nat, q: nat, r: nat)
    requires d > 0 && v == q * d + r && r < d
    ensures v / d == q
  {
    var q', r' := v / d, v % d;
    MulSub(q, q', d);
    if q > q' {
      MulLe(1, q - q', d);
    } else if q < q' {
      MulLe(1, q' - q, d);
      MulSub(q', q, d);
    }
  }

  lemma MulSub(x: int, y: int, d: int)
    ensures (x - y) * d == x * d - y * d
  {
  }

  /** The low `n` bytes of `v`, most significant first. */
  function LowBytes(v: nat, n: nat): (b: seq<byte>)
    ensures |b| == n
  {
    if n == 0 then [] else LowBytes(v / 256, n - 1) + [ByteOf(v, 0)]
  }

  /** The low `n` bytes of a value below 256^n read back as that value. */
  lemma {:induction false} LowBytesValue(v: nat, n: nat)
    requires v < Pow256(n)
    ensures BeValue(LowBytes(v, n)) == v
  {
    if n > 0 {
      var b := LowBytes(v, n);
      assert b[..n - 1] == LowBytes(v / 256, n - 1);
      LowBytesValue(v / 256, n - 1);
    }
  }

  /** The low bytes are the bytes ByteOf names. */
  lemma {:induction false} LowBytesAt(v: nat, n: nat, i: nat)
    requires i < n
    ensures LowBytes(v, n)[i] == ByteOf(v, n - 1 - i)
  {
    if i < n - 1 {
      LowBytesAt(v / 256, n - 1, i);
      ByteOfShift(v, n - 2 - i);
    }
  }

  lemma Be64BytesLow(v: nat)
    ensures Be64Bytes(v) == LowBytes(v, 8)
  {
    forall i | 0 <= i < 8
      ensures Be64Bytes(v)[i] == LowBytes(v, 8)[i]
    {
      LowBytesAt(v, 8, i);
    }
  }

  /** Reading back what was written gives the value written. */
  lemma ReadAfterWrite64(v: nat, rest: seq<byte>)
    requires v < Two64
    ensures ReadBe64(Be64Bytes(v) + rest, 0) == v
  {
    var buf := Be64Bytes(v) + rest;
    Be64BytesLow(v);
    assert Pow256(8) == Two64;
    LowBytesValue(v, 8);
    ReadBe64Value(buf, 0);
    assert buf[0..8] == Be64Bytes(v);
  }

  /** Writing back what was read gives the bytes that were read. */
  lemma WriteAfterRead64(s: seq<byte>)
    requires |s| >= 8
    ensures Be64Bytes(ReadBe64(s, 0)) == s[..8]
  {
    var v := ReadBe64(s, 0);
    ReadBe64Value(s, 0);
    ReadAfterWrite64(v, []);
    ReadBe64Value(Be64Bytes(v) + [], 0);
    assert (Be64Bytes(v) + [])[0..8] == Be64Bytes(v);
    assert s[0..8] == s[..8];
    BeValueInjective(Be64Bytes(v), s[..8]);
  }

  /** Two byte strings of one length with one value are equal. */
  lemma {:induction false} BeValueInjective(s: seq<byte>, t: seq<byte>)
    requires |s| == |t| && BeValue(s) == BeValue(t)
    ensures s == t
  {
    if s != [] {
      var n := |s| - 1;
      var a, b := BeValue(s[..n]), BeValue(t[..n]);
      var c, d := s[n] as nat, t[n] as nat;
      DigitsEqual(a, c, b, d);
      BeValueInjective(s[..n], t[..n]);
      assert s == s[..n] + [s[n]];
      assert t == t[..n] + [t[n]];
    }
  }

  lemma DigitsEqual(a: nat, c: nat, b: nat, d: nat)
    requires c < 256 && d < 256 && a * 256 + c == b * 256 + d
    ensures a == b && c == d
  {
    assert (a - b) * 256 == d - c;
  }

  /** A value below 2^32 is written as four zero bytes, then its own four
      big-endian bytes. */
  lemma Be64BytesOf32(c: nat)
    requires c < Two32
    ensures Be64Bytes(c)[..4] == [0, 0, 0, 0]
    ensures ReadBe32(Be64Bytes(c), 4) == c
  {
    var b := Be64Bytes(c);
    Be64BytesLow(c);
    assert Pow256(8) == Two64;
    LowBytesValue(c, 8);
    ReadBe64Value(b, 0);
    assert b[0..8] == b;
    BeValueSplit(b, 4);
    assert Pow256(4) == Two32;
    BeValueBound(b[4..]);
    ReadBe32Value(b, 4);
    assert b[4..8] == b[4..];
    HighPartZero(BeValue(b[..4]), BeValue(b[4..]), c);
    ZeroValue(b[..4]);
  }

  lemma HighPartZero(a: nat, r: nat, c: nat)
    requires r < Two32 && c < Two32 && c == a * Two32 + r
    ensures a == 0 && r == c
  {
  }

  lemma {:induction false} ZeroValue(s: seq<byte>)
    requires BeValue(s) == 0
    ensures forall i :: 0 <= i < |s| ==> s[i] == 0
  {
    if s != [] {
      ZeroValue(s[..|s| - 1]);
      assert forall i :: 0 <= i < |s| - 1 ==> s[i] == s[..|s| - 1][i];
    }
  }

  // CRC-32 of IEEE 802.3 (reflected polynomial 0xEDB88320, register
  // preset to all ones, result complemented), as zlib's crc32(0, ...) returns it.

  const CrcPolynomial: bv32 := 0xEDB8_8320

  /** `k` rounds of the bitwise reflected CRC shift register. */
  function CrcShift(c: bv32, k: nat): bv32
    decreases k
  {
    if k == 0 then c
    else CrcShift(if c & 1 == 1 then (c >> 1) ^ CrcPolynomial else c >> 1, k - 1)
  }

  /** The byte `b` as a 32-bit word, bit by bit. */
  function ByteBits(b: byte): bv32
  {
    (if b / 128 % 2 == 1 then 0x80 else 0) | (if b / 64 % 2 == 1 then 0x40 else 0) |
    (if b / 32 % 2 == 1 then 0x20 else 0) | (if b / 16 % 2 == 1 then 0x10 else 0) |
    (if b / 8 % 2 == 1 then 0x08 else 0) | (if b / 4 % 2 == 1 then 0x04 else 0) |
    (if b / 2 % 2 == 1 then 0x02 else 0) | (if b % 2 == 1 then 0x01 else 0)
  }

  /** The register after feeding in `s`: each byte is xored into the low
      end of the register, which then makes eight rounds. */
  function CrcRegister(c: bv32, s: seq<byte>): bv32
    decreases s
  {
    if s == [] then c else CrcRegister(CrcShift(c ^ ByteBits(s[0]), 8), s[1..])
  }

  /** The CRC-32 of `s`, as the unsigned 32-bit number calculate_crc32 returns. */
  function Crc32(s: seq<byte>): (r: nat)
    ensures r < Two32
  {
    (CrcRegister(0xFFFF_FFFF, s) ^ 0xFFFF_FFFF) as nat
  }

  /** A trace `rs` of register values, one per byte of `s` after the
      first, determines the register after the whole of `s`. */
  predicate IsTrace(s: seq<byte>, rs: seq<bv32>)
  {
    |rs| == |s| + 1 &&
    forall k :: 0 <= k < |s| ==> CrcShift(rs[k] ^ ByteBits(s[k]), 8) == rs[k + 1]
  }

  lemma {:induction false} CrcTrace(s: seq<byte>, rs: seq<bv32>)
    requires IsTrace(s, rs)
    decreases s
    ensures CrcRegister(rs[0], s) == rs[|s|]
  {
    if s != [] {
      TraceStep(s, rs);
      TraceTail(s, rs);
      CrcTrace(s[1..], rs[1..]);
    }
  }

  lemma TraceStep(s: seq<byte>, rs: seq<bv32>)
    requires IsTrace(s, rs) && s != []
    ensures CrcRegister(rs[0], s) == CrcRegister(rs[1], s[1..])
  {
  }

  lemma TraceTail(s: seq<byte>, rs: seq<bv32>)
    requires IsTrace(s, rs) && s != []
    ensures IsTrace(s[1..], rs[1..])
  {
    forall k | 0 <= k < |s| - 1
      ensures CrcShift(rs[1..][k] ^ ByteBits(s[1..][k]), 8) == rs[1..][k + 1]
    {
      assert rs[1..][k] == rs[k + 1] && s[1..][k] == s[k + 1] && rs[1..][k + 1] == rs[k + 2];
    }
  }

  /** The ASCII digits "123456789". */
  const CheckInput: seq<byte> := [0x31, 0x32, 0x33, 0x34, 0x35, 0x36, 0x37, 0x38, 0x39]

  /** The register before and after each byte of CheckInput. */
  const CheckRegisters: seq<bv32> :=
    [0xFFFF_FFFF, 0x7C23_1048, 0xB0AC_BB32, 0x77B7_9C2D, 0x641C_1F5C,
     0x340A_C5E3, 0xF68D_2C9E, 0xAFFC_9660, 0x651F_2550, 0x340B_C6D9]

  /** One byte of CheckInput through the register, three bytes per lemma. */
  lemma CheckStep(k: nat)
    requires k < 9
    ensures CrcShift(CheckRegisters[k] ^ ByteBits(CheckInput[k]), 8) == CheckRegisters[k + 1]
  {
    if k < 3 {
      CheckStepsLow(k);
    } else if k < 6 {
      CheckStepsMiddle(k);
    } else {
      CheckStepsHigh(k);
    }
  }

  lemma CheckStepsLow(k: nat)
    requires k < 3
    ensures CrcShift(CheckRegisters[k] ^ ByteBits(CheckInput[k]), 8) == CheckRegisters[k + 1]
  {
    if k == 0 {
    } else if k == 1 {
    } else {
    }
  }

  lemma CheckStepsMiddle(k: nat)
    requires 3 <= k < 6
    ensures CrcShift(CheckRegisters[k] ^ ByteBits(CheckInput[k]), 8) == CheckRegisters[k + 1]
  {
    if k == 3 {
    } else if k == 4 {
    } else {
    }
  }

  lemma CheckStepsHigh(k: nat)
    requires 6 <= k < 9
    ensures CrcShift(CheckRegisters[k] ^ ByteBits(CheckInput[k]), 8) == CheckRegisters[k + 1]
  {
    if k == 6 {
    } else if k == 7 {
    } else {
    }
  }

  /** The standard check value: CRC-32 of "123456789" is 0xCBF43926. */
  lemma Crc32CheckValue()
    ensures Crc32(CheckInput) == 0xCBF4_3926
  {
    forall k | 0 <= k < 9
      ensures CrcShift(CheckRegisters[k] ^ ByteBits(CheckInput[k]), 8) == CheckRegisters[k + 1]
    {
      CheckStep(k);
    }
    CrcTrace(CheckInput, CheckRegisters);
  }
}
