/**
 * Addresses the generated code uses to read MonotypeDict elements and
 * MonotypeVec elements: a position or index, scaled by the element size,
 * plus the offset of the entries within the array object.
 */
module Monotype {
  import opened Machine

  /** `MonotypeDict<int64_t>::elmSize()`, which the lowering asserts is 16. */
  const DictElmSize: nat := 16

  /** `sizeof(Value)`, the stride of a MonotypeVec's entries. */
  const ValueSize: nat := 8

  /** Byte offsets within MonotypeDict and MonotypeVec objects. Every
      MonotypeDict value shares one type byte at `dictTypeOffset`, every
      MonotypeVec element one at `vecTypeOffset`. */
  datatype MonotypeGeometry = MonotypeGeometry(
    dictEntriesOffset: nat,
    dictKeyOffset: nat,
    dictValOffset: nat,
    dictTypeOffset: nat,
    vecEntriesOffset: nat,
    vecTypeOffset: nat)

  /** A memory operand relative to the array register: `rarr[disp]`, or
      `rarr[index * scale + disp]` with `index` the value of a register. */
  datatype Operand = Disp(disp: int) | Indexed(index: int, scale: nat, disp: int)

  /** The offset from the array's address the operand designates (before
      the 64-bit wrap of the address itself). */
  function Offset(o: Operand): int {
    match o
    case Disp(d) => d
    case Indexed(i, s, d) => i * s + d
  }

  /** The index register holding a runtime position: the low 32 bits of the
      position (`movtql`), shifted left by one in 32 bits (`shlli`), and
      zero-extended (`movzlq`). */
  function ScaledPos(pos: int): (r: nat)
    ensures r < TwoTo32 && r % 2 == 0
  {
    Low32(Low32(pos) * 2)
  }

  /** `ptrToMonotypeDictElm`: the operand `off` bytes into the element at
      iterator position `pos` (a signed 64-bit value). A constant position
      whose offset fits a signed 32-bit displacement becomes a displacement;
      otherwise the scaled position register is used. */
  function PtrToMonotypeDictElm(g: MonotypeGeometry, off: nat, pos: int, posIsConst: bool): (o: Operand)
    requires -TwoTo63 <= pos < TwoTo63
    ensures o.Disp? ==> posIsConst && FitsDword(o.disp)
    ensures o.Disp? ==> (o.disp - (g.dictEntriesOffset + off + DictElmSize * pos)) % TwoTo64 == 0
    ensures o.Indexed? ==> Offset(o) == g.dictEntriesOffset + off + DictElmSize * (pos % TwoTo31)
  {
    var base := g.dictEntriesOffset + off;
    var offset := ToInt64(pos * DictElmSize + base);
    if posIsConst && FitsDword(offset) then
      Disp(offset)
    else
      RuntimeDictOffset(ScaledPos(pos), base, pos);
      Indexed(ScaledPos(pos), DictElmSize / 2, base)
  }

  /** The scaled-position operand addresses element `pos mod 2^31`. */
  lemma RuntimeDictOffset(scaled: int, base: int, pos: int)
    requires scaled == ScaledPos(pos)
    ensures scaled * (DictElmSize / 2) + base == base + DictElmSize * (pos % TwoTo31)
  {
    var p := Low32(pos);
    var k := pos / TwoTo32;
    assert pos == k * TwoTo32 + p;
    if p < TwoTo31 {
      ModUnique31(pos, 2 * k, p);
      assert scaled == 2 * p;
    } else {
      ModUnique31(pos, 2 * k + 1, p - TwoTo31);
      ModUnique32(2 * p, 1, 2 * p - TwoTo32);
      assert scaled == 2 * p - TwoTo32;
    }
  }

  /** The remainder modulo 2^31 and 2^32 is the one of any decomposition. */
  lemma ModUnique31(x: int, q: int, r: int)
    requires x == q * TwoTo31 + r && 0 <= r < TwoTo31
    ensures x % TwoTo31 == r
  {
  }

  lemma ModUnique32(x: int, q: int, r: int)
    requires x == q * TwoTo32 + r && 0 <= r < TwoTo32
    ensures x % TwoTo32 == r
  {
  }

  /** For every position a dict can hold (below 2^31), both forms of the
      operand address exactly `off` bytes into element `pos`. */
  lemma DictElmAddressExact(g: MonotypeGeometry, off: nat, pos: int, posIsConst: bool)
    requires 0 <= pos < TwoTo31
    requires g.dictEntriesOffset + off < TwoTo31
    ensures Offset(PtrToMonotypeDictElm(g, off, pos, posIsConst)) == g.dictEntriesOffset + off + DictElmSize * pos
  {
  }

  /** The runtime form truncates the position to 31 bits: positions 2^31
      apart are read from the same address. */
  lemma DictElmRuntimePositionWraps(g: MonotypeGeometry, off: nat, pos: int)
    requires -TwoTo63 <= pos < TwoTo63 - TwoTo31
    ensures PtrToMonotypeDictElm(g, off, pos, false) == PtrToMonotypeDictElm(g, off, pos + TwoTo31, false)
  {
    ScaledPosPeriodic(pos);
  }

  /** Positions 2^31 apart have the same scaled index register. */
  lemma ScaledPosPeriodic(pos: int)
    ensures ScaledPos(pos) == ScaledPos(pos + TwoTo31)
  {
    var s1, s2 := ScaledPos(pos), ScaledPos(pos + TwoTo31);
    RuntimeDictOffset(s1, 0, pos);
    RuntimeDictOffset(s2, 0, pos + TwoTo31);
    ModUnique31(pos + TwoTo31, pos / TwoTo31 + 1, pos % TwoTo31);
    assert s1 * 8 == s2 * 8;
  }

  /** The data type of a MonotypeDict key. */
  datatype KeyKind = KindOfInt64 | KindOfString

  /** A load of a TypedValue: where its payload is read and where its type
      comes from (a memory byte, or a type computed into a register). */
  datatype KeyLoad = KeyLoad(data: Operand, keyType: KeyKind)
  datatype ValLoad = ValLoad(data: Operand, typeByte: Operand)

  /** `cgLdMonotypeDictKey`: the key is read at the element's key offset;
      its type is `KindOfInt64` when the layout index has any bit of the
      int-key mask set (`testwim`, then `cmovb` on CC_Z picking
      `KindOfString` for a zero test). */
  function LdMonotypeDictKey(g: MonotypeGeometry, pos: int, posIsConst: bool,
                             layoutIndex: bv16, intKeyMask: bv16): (r: KeyLoad)
    requires -TwoTo63 <= pos < TwoTo63
    ensures r.data == PtrToMonotypeDictElm(g, g.dictKeyOffset, pos, posIsConst)
    ensures 0 <= pos < TwoTo31 && g.dictEntriesOffset + g.dictKeyOffset < TwoTo31 ==>
      Offset(r.data) == g.dictEntriesOffset + g.dictKeyOffset + DictElmSize * pos
    ensures r.keyType == KindOfInt64 <==> layoutIndex & intKeyMask != 0
  {
    var sf := layoutIndex & intKeyMask;
    KeyLoad(PtrToMonotypeDictElm(g, g.dictKeyOffset, pos, posIsConst),
            if sf == 0 then KindOfString else KindOfInt64)
  }

  /** `cgLdMonotypeDictVal`: the value is read at the element's value
      offset; its type byte is the dict's single shared one. */
  function LdMonotypeDictVal(g: MonotypeGeometry, pos: int, posIsConst: bool): (r: ValLoad)
    requires -TwoTo63 <= pos < TwoTo63
    ensures r.data == PtrToMonotypeDictElm(g, g.dictValOffset, pos, posIsConst)
    ensures 0 <= pos < TwoTo31 && g.dictEntriesOffset + g.dictValOffset < TwoTo31 ==>
      Offset(r.data) == g.dictEntriesOffset + g.dictValOffset + DictElmSize * pos
    ensures r.typeByte == Disp(g.dictTypeOffset)
  {
    ValLoad(PtrToMonotypeDictElm(g, g.dictValOffset, pos, posIsConst), Disp(g.dictTypeOffset))
  }

  /** A key and a value loaded at the same position belong to the same element. */
  lemma KeyAndValueShareElement(g: MonotypeGeometry, pos: int, posIsConst: bool, layoutIndex: bv16, intKeyMask: bv16)
    requires 0 <= pos < TwoTo31
    requires g.dictEntriesOffset + g.dictKeyOffset < TwoTo31
    requires g.dictEntriesOffset + g.dictValOffset < TwoTo31
    ensures Offset(LdMonotypeDictKey(g, pos, posIsConst, layoutIndex, intKeyMask).data) - g.dictKeyOffset
         == Offset(LdMonotypeDictVal(g, pos, posIsConst).data) - g.dictValOffset
  {
    DictElmAddressExact(g, g.dictKeyOffset, pos, posIsConst);
    DictElmAddressExact(g, g.dictValOffset, pos, posIsConst);
  }

  /** `cgLdMonotypeVecElem`: element `idx` is read at `idx * sizeof(Value)`
      past the entries, as a displacement when the index is a constant whose
      offset fits one, and through the index register otherwise; its type is
      the vec's shared type byte. The operand always designates the element
      modulo 2^64, and exactly whenever its offset is a signed 64-bit value. */
  function LdMonotypeVecElem(g: MonotypeGeometry, idx: int, idxIsConst: bool): (r: ValLoad)
    requires -TwoTo63 <= idx < TwoTo63
    ensures r.typeByte == Disp(g.vecTypeOffset)
    ensures r.data.Disp? ==> idxIsConst && FitsDword(r.data.disp)
    ensures (Offset(r.data) - (g.vecEntriesOffset + ValueSize * idx)) % TwoTo64 == 0
    ensures -TwoTo63 <= g.vecEntriesOffset + ValueSize * idx < TwoTo63 ==>
      Offset(r.data) == g.vecEntriesOffset + ValueSize * idx
  {
    var base := g.vecEntriesOffset;
    var value :=
      if idxIsConst && FitsDword(ToInt64(idx * ValueSize + base)) then Disp(ToInt64(idx * ValueSize + base))
      else Indexed(idx, ValueSize, base);
    ValLoad(value, Disp(g.vecTypeOffset))
  }
}
