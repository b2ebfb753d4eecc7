/**
 * Machine-level vocabulary shared by the model: fixed-width integer
 * reinterpretation, signed 32-bit displacements, little-endian byte images
 * of 32-bit stores, and the byte buffer the generated code writes.
 */
module Machine {

  /** One byte of memory, as the unsigned value it holds. */
  type Byte = x: int | 0 <= x < 256

  const TwoTo31: int := 0x8000_0000
  const TwoTo32: int := 0x1_0000_0000
  const TwoTo63: int := 0x8000_0000_0000_0000
  const TwoTo64: int := 0x1_0000_0000_0000_0000

  /** Reinterprets an integer modulo 2^64 as a signed 64-bit value
      (what a `size_t` result becomes when it is read back as `int64_t`). */
  function ToInt64(x: int): (r: int)
    ensures -TwoTo63 <= r < TwoTo63
    ensures (r - x) % TwoTo64 == 0
    ensures -TwoTo63 <= x < TwoTo63 ==> r == x
  {
    (x + TwoTo63) % TwoTo64 - TwoTo63
  }

  /** `deltaFits(v, sz::dword)`: v is usable as a signed 32-bit displacement. */
  predicate FitsDword(v: int) {
    -TwoTo31 <= v < TwoTo31
  }

  /** `movtql`: keeps the low 32 bits of a 64-bit register. */
  function Low32(x: int): (r: nat)
    ensures r < TwoTo32
    ensures (x - r) % TwoTo32 == 0
    ensures 0 <= x < TwoTo32 ==> r == x
  {
    x % TwoTo32
  }

  /** 2 to the power n. */
  function Pow2(n: nat): (r: nat)
    ensures r >= 1
  {
    if n == 0 then 1 else 2 * Pow2(n - 1)
  }

  /** `shlqi`: a 64-bit left shift by `s`, dropping the bits shifted out. */
  function ShiftLeft64(x: int, s: nat): (r: nat)
    ensures r < TwoTo64
    ensures (r - x * Pow2(s)) % TwoTo64 == 0
  {
    (x * Pow2(s)) % TwoTo64
  }

  /** `movtqb`: keeps the low 8 bits of a register. */
  function LowByte(x: int): (r: Byte)
    ensures (x - r) % 256 == 0
  {
    x % 256
  }

  /** Division by 256 with remainder, and its uniqueness. */
  lemma ByteSplit(x: int)
    ensures x == 256 * (x / 256) + x % 256 && 0 <= x % 256 < 256
  {
  }

  lemma ByteJoin(q: int, r: int)
    requires 0 <= r < 256
    ensures (256 * q + r) / 256 == q && (256 * q + r) % 256 == r
  {
  }

  /** The four bytes a 32-bit store (`storel`) writes, least significant first. */
  function Le32(x: nat): (bs: seq<Byte>)
    requires x < TwoTo32
    ensures |bs| == 4
    ensures LeValue32(bs) == x
  {
    var q0 := x / 256;
    var q1 := q0 / 256;
    var q2 := q1 / 256;
    ByteSplit(x);
    ByteSplit(q0);
    ByteSplit(q1);
    [x % 256, q0 % 256, q1 % 256, q2]
  }

  /** The value a zero-extending 32-bit load (`loadzlq`) reads from four bytes. */
  function LeValue32(bs: seq<Byte>): (r: nat)
    requires |bs| == 4
    ensures r < TwoTo32
  {
    bs[0] as int + 256 * (bs[1] as int + 256 * (bs[2] as int + 256 * bs[3] as int))
  }

  /** Storing what was loaded gives back the same four bytes. */
  lemma Le32RoundTrip(bs: seq<Byte>)
    requires |bs| == 4
    ensures Le32(LeValue32(bs)) == bs
  {
    var q1: int := bs[2] as int + 256 * bs[3] as int;
    var q0: int := bs[1] as int + 256 * q1;
    ByteJoin(q0, bs[0]);
    ByteJoin(q1, bs[1]);
    ByteJoin(bs[3], bs[2]);
  }

  /** The bytes `m` with `bs` written over them from offset `off`. */
  function Overlay(m: seq<Byte>, off: nat, bs: seq<Byte>): (r: seq<Byte>)
    requires off + |bs| <= |m|
    ensures |r| == |m|
  {
    m[..off] + bs + m[off + |bs|..]
  }

  /** An overlay holds `bs` in its range and `m` elsewhere. */
  lemma OverlayAt(m: seq<Byte>, off: nat, bs: seq<Byte>)
    requires off + |bs| <= |m|
    ensures var r := Overlay(m, off, bs);
      && (forall i :: 0 <= i < off ==> r[i] == m[i])
      && (forall i :: off <= i < off + |bs| ==> r[i] == bs[i - off])
      && (forall i :: off + |bs| <= i < |m| ==> r[i] == m[i])
  {
  }

  /** Writes `bs` into `mem` from index `off` on (a little-endian store of
      |bs| bytes); nothing else changes. */
  method StoreBytes(mem: array<Byte>, off: nat, bs: seq<Byte>)
    requires off + |bs| <= mem.Length
    modifies mem
    ensures mem[..] == Overlay(old(mem[..]), off, bs)
  {
    forall i | off <= i < off + |bs| {
      mem[i] := bs[i - off];
    }
  }
}
