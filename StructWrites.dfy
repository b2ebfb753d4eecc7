/**
 * The code that writes a StructDict's bookkeeping bytes: the positions
 * array and size field of a new StructDict, the slot buffer passed to
 * `MakeStructDict`, and appending one position.
 * Memory is an array of bytes indexed by offset from the array object.
 */
module StructWrites {
  import opened Machine
  import opened Word64
  import opened ArrayTypes
  import opened Dispatch
  import opened StructStorage

  /** The 32-bit size field of an array object, as `loadzlq` reads it. */
  function SizeField(g: Geometry, bytes: seq<Byte>): (r: nat)
    requires g.sizeOffset + 4 <= |bytes|
    ensures r < TwoTo32
  {
    LeValue32(bytes[g.sizeOffset..g.sizeOffset + 4])
  }

  // ---------------------------------------------------------------------
  // Allocation

  /** `cgAllocBespokeStructDict`: a call to `AllocStructDict` with the
      layout's size index and initializer, without syncing. */
  function AllocBespokeStructDict(): (c: Call)
    ensures c.target == StructDictFn(AllocStructDict) && c.args == 2 && c.sync == NoSync
  {
    Call(StructDictFn(AllocStructDict), 2, NoSync)
  }

  // ---------------------------------------------------------------------
  // Initial positions

  /** The byte stored for positions-array index `index`: a negative index
      lies in the tail of the type array, which keeps `KindOfUninit`; the
      first `numSlots` indices receive the slots; the rest are zeroed. */
  function PositionByte(index: int, numSlots: nat, slots: seq<Byte>, uninit: Byte): Byte
    requires numSlots <= |slots|
  {
    if index < 0 then uninit else if index < numSlots then slots[index] else 0
  }

  /** The bytes the 8-byte stores of `cgInitStructPositions` cover, starting
      `pad` bytes before the positions array. */
  function PositionImage(pad: nat, numSlots: nat, slots: seq<Byte>, uninit: Byte): (img: seq<Byte>)
    requires numSlots <= |slots|
    ensures |img| == RoundUp8(numSlots + pad)
  {
    seq(pad, _ => uninit) + slots[..numSlots] + seq(RoundUp8(numSlots + pad) - pad - numSlots, _ => 0)
  }

  /** The image is `pad` bytes of `KindOfUninit`, the slots, then zeros up
      to the next multiple of 8: byte k is the one for index `k - pad`. */
  lemma PositionImageBytes(pad: nat, numSlots: nat, slots: seq<Byte>, uninit: Byte)
    requires numSlots <= |slots|
    ensures var img := PositionImage(pad, numSlots, slots, uninit);
      && |img| % 8 == 0 && pad + numSlots <= |img| < pad + numSlots + 8
      && (forall k :: 0 <= k < pad ==> img[k] == uninit)
      && (forall k :: 0 <= k < numSlots ==> img[pad + k] == slots[k])
      && (forall k :: pad + numSlots <= k < |img| ==> img[k] == 0)
      && (forall k :: 0 <= k < |img| ==> img[k] == PositionByte(k - pad, numSlots, slots, uninit))
  {
  }

  /** The inner loop of `cgInitStructPositions`: the 64-bit word stored at
      image offset `i`, built by OR-ing into a zero word, for j = 0..7, the
      byte for positions-array index `i + j - pad` shifted left by `8 * j`.
      The bytes of its little-endian store are that stretch of the image. */
  method PositionWord(i: nat, pad: nat, numSlots: nat, slots: seq<Byte>, uninit: Byte)
    returns (word: bv64)
    requires numSlots <= |slots| && i + 8 <= RoundUp8(numSlots + pad)
    ensures Le64(word) == PositionImage(pad, numSlots, slots, uninit)[i..i + 8]
  {
    ghost var img := PositionImage(pad, numSlots, slots, uninit);
    PositionImageBytes(pad, numSlots, slots, uninit);
    word := 0;
    var j := 0;
    while j < 8
      invariant 0 <= j <= 8
      invariant forall t :: 0 <= t < j ==> LaneByte(word, t) == img[i + t]
      invariant forall t :: j <= t < 8 ==> LaneByte(word, t) == 0
    {
      var index := i + j - pad;
      var slot: Byte := if index < 0 then uninit else if index < numSlots then slots[index] else 0;
      var bits := ToBv8(slot);
      OrIntoClearLane(word, bits, j);
      word := OrIntoLane(word, bits, j);
      j := j + 1;
    }
    assert Le64(word) == img[i..i + 8];
  }

  /** Where the first 8-byte store of `cgInitStructPositions` goes: the
      position offset rounded down to a multiple of 8. */
  function PositionsStart(layout: StructLayout): (r: nat)
    ensures r % 8 == 0 && r <= layout.positionOffset < r + 8
  {
    layout.positionOffset - layout.positionOffset % 8
  }

  /** The bytes of an array after `cgInitStructPositions`: the size field
      holds `numSlots`, and the position image is written at
      `PositionsStart`, with `positionOffset & 7` bytes of padding before
      the positions array. */
  function InitializedPositions(m: seq<Byte>, g: Geometry, layout: StructLayout,
                                numSlots: nat, slots: seq<Byte>, uninit: Byte): (r: seq<Byte>)
    requires numSlots <= |slots| && numSlots < TwoTo32
    requires g.sizeOffset + 4 <= PositionsStart(layout)
    requires PositionsStart(layout) + RoundUp8(numSlots + layout.positionOffset % 8) <= |m|
    ensures |r| == |m|
  {
    Overlay(Overlay(m, g.sizeOffset, Le32(numSlots)), PositionsStart(layout),
            PositionImage(layout.positionOffset % 8, numSlots, slots, uninit))
  }

  /** After `cgInitStructPositions` the size field reads back as `numSlots`. */
  lemma InitializedSize(m: seq<Byte>, g: Geometry, layout: StructLayout,
                        numSlots: nat, slots: seq<Byte>, uninit: Byte)
    requires numSlots <= |slots| && numSlots < TwoTo32
    requires g.sizeOffset + 4 <= PositionsStart(layout)
    requires PositionsStart(layout) + RoundUp8(numSlots + layout.positionOffset % 8) <= |m|
    ensures SizeField(g, InitializedPositions(m, g, layout, numSlots, slots, uninit)) == numSlots
  {
    var img := PositionImage(layout.positionOffset % 8, numSlots, slots, uninit);
    OverlayDisjoint(m, g.sizeOffset, Le32(numSlots), PositionsStart(layout), img);
  }

  /** After `cgInitStructPositions` slot k is at `positionOffset + k`; the
      bytes from the aligned start up to `positionOffset` (the tail of the
      type array) hold `KindOfUninit`; the rest of the last word is zero. */
  lemma InitializedSlots(m: seq<Byte>, g: Geometry, layout: StructLayout,
                         numSlots: nat, slots: seq<Byte>, uninit: Byte)
    requires numSlots <= |slots| && numSlots < TwoTo32
    requires g.sizeOffset + 4 <= PositionsStart(layout)
    requires PositionsStart(layout) + RoundUp8(numSlots + layout.positionOffset % 8) <= |m|
    ensures var r := InitializedPositions(m, g, layout, numSlots, slots, uninit);
      && (forall k :: 0 <= k < numSlots ==> r[layout.positionOffset + k] == slots[k])
      && (forall x :: PositionsStart(layout) <= x < layout.positionOffset ==> r[x] == uninit)
      && (forall x :: layout.positionOffset + numSlots <= x < PositionsStart(layout) + RoundUp8(numSlots + layout.positionOffset % 8)
                      ==> r[x] == 0)
  {
    var start, pad := PositionsStart(layout), layout.positionOffset % 8;
    var img := PositionImage(pad, numSlots, slots, uninit);
    var r := InitializedPositions(m, g, layout, numSlots, slots, uninit);
    assert start + pad == layout.positionOffset;
    OverlayAt(Overlay(m, g.sizeOffset, Le32(numSlots)), start, img);
    PositionImageBytes(pad, numSlots, slots, uninit);
    forall k | 0 <= k < numSlots
      ensures r[layout.positionOffset + k] == slots[k]
    {
      assert r[start + (pad + k)] == img[pad + k];
    }
  }

  /** `cgInitStructPositions` changes no byte outside the size field and the
      words it stores. */
  lemma InitializedFrame(m: seq<Byte>, g: Geometry, layout: StructLayout,
                         numSlots: nat, slots: seq<Byte>, uninit: Byte)
    requires numSlots <= |slots| && numSlots < TwoTo32
    requires g.sizeOffset + 4 <= PositionsStart(layout)
    requires PositionsStart(layout) + RoundUp8(numSlots + layout.positionOffset % 8) <= |m|
    ensures var r := InitializedPositions(m, g, layout, numSlots, slots, uninit);
      forall x :: 0 <= x < |m| && !(g.sizeOffset <= x < g.sizeOffset + 4)
                  && !(PositionsStart(layout) <= x < PositionsStart(layout) + RoundUp8(numSlots + layout.positionOffset % 8))
                  ==> r[x] == m[x]
  {
    var img := PositionImage(layout.positionOffset % 8, numSlots, slots, uninit);
    OverlayDisjoint(m, g.sizeOffset, Le32(numSlots), PositionsStart(layout), img);
  }

  /** `cgInitStructPositions` on the array `mem` of concrete layout `layout`:
      stores the 32-bit size, then the position image one 8-byte word at a
      time. Each word is a `bv64` built by `PositionWord`, and its store
      writes `Le64(word)` (the lane facts are in `Word64`). */
  method InitStructPositions(mem: array<Byte>, g: Geometry, layout: StructLayout,
                             numSlots: nat, slots: seq<Byte>, uninit: Byte)
    requires numSlots <= |slots| && numSlots < TwoTo32
    requires g.sizeOffset + 4 <= PositionsStart(layout)
    requires PositionsStart(layout) + RoundUp8(numSlots + layout.positionOffset % 8) <= mem.Length
    modifies mem
    ensures mem[..] == InitializedPositions(old(mem[..]), g, layout, numSlots, slots, uninit)
  {
    ghost var sized := Overlay(mem[..], g.sizeOffset, Le32(numSlots));
    StoreBytes(mem, g.sizeOffset, Le32(numSlots));
    var size := numSlots;
    var padBytes := layout.positionOffset % 8;
    assert layout.positionOffset - padBytes == PositionsStart(layout);
    StorePositions(mem, layout.positionOffset - padBytes, padBytes, size, slots, uninit);
    assert mem[..] == Overlay(sized, PositionsStart(layout), PositionImage(padBytes, size, slots, uninit));
  }

  /** The loop of `cgInitStructPositions`: one 8-byte store per word of the
      image, at `start`, `start + 8`, ..., while the word begins before the
      end of the slots. Every store is 8-byte aligned. */
  method StorePositions(mem: array<Byte>, start: nat, padBytes: nat, size: nat, slots: seq<Byte>, uninit: Byte)
    requires start % 8 == 0
    requires size <= |slots| && start + RoundUp8(size + padBytes) <= mem.Length
    modifies mem
    ensures mem[..] == Overlay(old(mem[..]), start, PositionImage(padBytes, size, slots, uninit))
  {
    ghost var img := PositionImage(padBytes, size, slots, uninit);
    ghost var before := mem[..];
    ghost var words := |img| / 8;
    assert |img| == 8 * words;
    var i := 0;
    ghost var w := 0;
    while i < size + padBytes
      invariant 0 <= w <= words && i == 8 * w
      invariant mem[..] == Overlay(before, start, img[..i])
    {
      assert w < words;
      var word := PositionWord(i, padBytes, size, slots, uninit);
      var offset := start + i;
      assert offset % 8 == 0;
      OverlayGrows(before, start, img, i, 8);
      StoreBytes(mem, offset, Le64(word));
      i := i + 8;
      w := w + 1;
    }
    LoopCoversImage(i, w, words, size + padBytes, |img|);
    assert img[..|img|] == img;
  }

  lemma LoopCoversImage(i: nat, w: nat, words: nat, n: nat, len: nat)
    requires len == RoundUp8(n) && len == 8 * words
    requires i == 8 * w && w <= words && n <= i
    ensures i == len
  {
  }

  /** Writing the next `n` bytes of `img` extends an overlay of its prefix. */
  lemma OverlayGrows(m: seq<Byte>, start: nat, img: seq<Byte>, i: nat, n: nat)
    requires i + n <= |img| && start + |img| <= |m|
    ensures Overlay(Overlay(m, start, img[..i]), start + i, img[i..i + n]) == Overlay(m, start, img[..i + n])
  {
    var l := Overlay(Overlay(m, start, img[..i]), start + i, img[i..i + n]);
    var r := Overlay(m, start, img[..i + n]);
    OverlayAt(m, start, img[..i]);
    OverlayAt(Overlay(m, start, img[..i]), start + i, img[i..i + n]);
    OverlayAt(m, start, img[..i + n]);
    assert forall x :: 0 <= x < |m| ==> l[x] == r[x];
  }

  /** Two writes to disjoint ranges: each range holds what was written to
      it, and every other byte is unchanged. */
  lemma OverlayDisjoint(m: seq<Byte>, off1: nat, bs1: seq<Byte>, off2: nat, bs2: seq<Byte>)
    requires off1 + |bs1| <= off2 && off2 + |bs2| <= |m|
    ensures var r := Overlay(Overlay(m, off1, bs1), off2, bs2);
      && r[off1..off1 + |bs1|] == bs1
      && r[off2..off2 + |bs2|] == bs2
      && forall x :: 0 <= x < |m| && !(off1 <= x < off1 + |bs1|) && !(off2 <= x < off2 + |bs2|) ==> r[x] == m[x]
  {
    var r := Overlay(Overlay(m, off1, bs1), off2, bs2);
    OverlayAt(m, off1, bs1);
    OverlayAt(Overlay(m, off1, bs1), off2, bs2);
    assert r[off1..off1 + |bs1|] == bs1;
    assert r[off2..off2 + |bs2|] == bs2;
  }

  // ---------------------------------------------------------------------
  // The slot buffer of NewBespokeStructDict

  /** The slot buffer handed to `MakeStructDict`: the slots, then
      `KindOfUninit` up to a multiple of 8 bytes. */
  function PaddedSlots(numSlots: nat, slots: seq<Byte>, uninit: Byte): (buf: seq<Byte>)
    requires numSlots <= |slots|
    ensures |buf| == RoundUp8(numSlots) && |buf| % 8 == 0
    ensures buf[..numSlots] == slots[..numSlots]
    ensures forall i :: numSlots <= i < |buf| ==> buf[i] == uninit
  {
    slots[..numSlots] + seq(RoundUp8(numSlots) - numSlots, _ => uninit)
  }

  /** `cgNewBespokeStructDict`: fills a fresh buffer of whole 8-byte words
      with the padded slots, and calls `MakeStructDict` with the layout's
      size index and initializer, the slot count, the buffer and the stack
      address of the values, without syncing. */
  method NewBespokeStructDict(numSlots: nat, slots: seq<Byte>, uninit: Byte)
    returns (buf: array<Byte>, call: Call)
    requires numSlots <= |slots|
    ensures fresh(buf)
    ensures buf[..] == PaddedSlots(numSlots, slots, uninit)
    ensures call == Call(StructDictFn(MakeStructDict), 5, NoSync)
  {
    var n := RoundUp8(numSlots);
    buf := new Byte[n];
    var i := 0;
    while i < numSlots
      invariant 0 <= i <= numSlots
      invariant forall k :: 0 <= k < i ==> buf[k] == slots[k]
    {
      buf[i] := slots[i];
      i := i + 1;
    }
    while i < n
      invariant numSlots <= i <= n
      invariant forall k :: 0 <= k < numSlots ==> buf[k] == slots[k]
      invariant forall k :: numSlots <= k < i ==> buf[k] == uninit
    {
      buf[i] := uninit;
      i := i + 1;
    }
    assert buf[..] == PaddedSlots(numSlots, slots, uninit);
    call := Call(StructDictFn(MakeStructDict), 5, NoSync);
  }

  // ---------------------------------------------------------------------
  // Appending a position

  /** Where `cgStructDictAddNextSlot` stores the slot: `size` bytes into the
      positions array, which starts at the layout's position offset for a
      concrete layout, and after the header and one type byte per field
      (the header's field count) for an abstract one. On a StructDict of a
      well-formed layout whose header records that layout's field count,
      both forms give position number `size` of that layout's positions. */
  function NextPositionAt(g: Geometry, shape: Shape, bytes: seq<Byte>): (r: nat)
    requires shape.IsStruct() && g.sizeOffset + 4 <= |bytes|
    requires shape.AbstractStruct? ==> g.numFieldsOffset < |bytes|
    ensures forall cfg: Config, actual: StructLayout ::
      cfg.Valid() && WellFormedLayout(cfg, g, actual)
      && (shape.ConcreteStruct? ==> shape.layout == actual)
      && (shape.AbstractStruct? ==> bytes[g.numFieldsOffset] == |actual.fields|)
      ==> r == actual.positionOffset + SizeField(g, bytes)
  {
    var size := SizeField(g, bytes);
    if shape.ConcreteStruct? then size + shape.layout.positionOffset
    else size + bytes[g.numFieldsOffset] + g.structDictSize
  }

  /** While the dict is not full, the next position lies inside the
      positions array, which ends before the values begin. */
  lemma NextPositionInsidePositions(cfg: Config, g: Geometry, shape: Shape, actual: StructLayout, bytes: seq<Byte>)
    requires cfg.Valid() && WellFormedLayout(cfg, g, actual) && shape.IsStruct()
    requires g.sizeOffset + 4 <= |bytes| && g.numFieldsOffset < |bytes|
    requires shape.ConcreteStruct? ==> shape.layout == actual
    requires bytes[g.numFieldsOffset] == |actual.fields|
    requires SizeField(g, bytes) < |actual.fields|
    ensures actual.positionOffset <= NextPositionAt(g, shape, bytes)
                                   < actual.positionOffset + |actual.fields| <= actual.valueOffset
  {
  }

  /** The bytes of a StructDict after `cgStructDictAddNextSlot`: the low
      byte of `slot` at the next position, and the size field incremented,
      wrapping to 0 past 2^32 - 1. */
  function AddedNextSlot(m: seq<Byte>, g: Geometry, shape: Shape, slot: int): (r: seq<Byte>)
    requires shape.IsStruct() && g.sizeOffset + 4 <= |m|
    requires shape.AbstractStruct? ==> g.numFieldsOffset < |m|
    requires NextPositionAt(g, shape, m) < |m|
    ensures |r| == |m|
  {
    Overlay(m[NextPositionAt(g, shape, m) := LowByte(slot)], g.sizeOffset,
            Le32((SizeField(g, m) + 1) % TwoTo32))
  }

  /** What `AddedNextSlot` promises when the position is not inside the size
      field: the slot's byte is at the position, the size grows by one
      modulo 2^32, and no other byte changes. */
  lemma AddedNextSlotContents(m: seq<Byte>, g: Geometry, shape: Shape, slot: int)
    requires shape.IsStruct() && g.sizeOffset + 4 <= |m|
    requires shape.AbstractStruct? ==> g.numFieldsOffset < |m|
    requires NextPositionAt(g, shape, m) < |m|
    requires !(g.sizeOffset <= NextPositionAt(g, shape, m) < g.sizeOffset + 4)
    ensures var r, at := AddedNextSlot(m, g, shape, slot), NextPositionAt(g, shape, m);
      && r[at] == LowByte(slot)
      && SizeField(g, r) == (SizeField(g, m) + 1) % TwoTo32
      && forall i :: 0 <= i < |m| && i != at && !(g.sizeOffset <= i < g.sizeOffset + 4) ==> r[i] == m[i]
  {
    var at := NextPositionAt(g, shape, m);
    var stored := m[at := LowByte(slot)];
    var bs := Le32((SizeField(g, m) + 1) % TwoTo32);
    var r := AddedNextSlot(m, g, shape, slot);
    OverlayAt(stored, g.sizeOffset, bs);
    assert r[g.sizeOffset..g.sizeOffset + 4] == bs;
  }

  /** `cgStructDictAddNextSlot`: stores the low byte of `slot` at the next
      position, then stores the incremented size truncated to 32 bits. */
  method StructDictAddNextSlot(mem: array<Byte>, g: Geometry, shape: Shape, slot: int)
    requires shape.IsStruct() && g.sizeOffset + 4 <= mem.Length
    requires shape.AbstractStruct? ==> g.numFieldsOffset < mem.Length
    requires NextPositionAt(g, shape, mem[..]) < mem.Length
    modifies mem
    ensures mem[..] == AddedNextSlot(old(mem[..]), g, shape, slot)
  {
    ghost var before := mem[..];
    var size := LeValue32(mem[g.sizeOffset..g.sizeOffset + 4]);
    var at: nat;
    if shape.ConcreteStruct? {
      at := size + shape.layout.positionOffset;
    } else {
      var numFields := mem[g.numFieldsOffset];
      var positionsOffset := size + numFields;
      at := positionsOffset + g.structDictSize;
    }
    assert at == NextPositionAt(g, shape, before);
    mem[at] := LowByte(slot);
    assert mem[..] == before[at := LowByte(slot)];
    var newSize := size + 1;
    var truncatedSize := Low32(newSize);
    StoreBytes(mem, g.sizeOffset, Le32(truncatedSize));
  }
}
