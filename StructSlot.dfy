/**
 * Mapping a string key to the slot of a StructDict field: constant folding
 * for a constant key and a concrete layout, the perfect-hash probe for keys
 * that may be static, and the out-of-line content lookup for the rest.
 */
module StructSlot {
  import opened Machine
  import opened ArrayTypes

  /** `getStructSlot`: no answer for an abstract struct layout; the constant
      key's slot, or `kInvalidSlot` when it names no field, for a concrete one. */
  function GetStructSlot(shape: Shape, key: StrObj): (r: Option<int>)
    requires shape.IsStruct()
    ensures r.None? <==> shape.AbstractStruct?
    ensures r.Some? && r.value != KInvalidSlot ==>
      0 <= r.value < |shape.layout.fields| && shape.layout.fields[r.value].name.text == key.text
    ensures r.Some? && 0 <= r.value < |shape.layout.fields| ==>
      forall j :: 0 <= j < r.value ==> shape.layout.fields[j].name.text != key.text
    ensures r.Some? && |shape.layout.fields| <= KInvalidSlot ==>
      (r.value == KInvalidSlot <==>
         forall j :: 0 <= j < |shape.layout.fields| ==> shape.layout.fields[j].name.text != key.text)
  {
    if shape.AbstractStruct? then None else Some(KeySlot(shape.layout, key.text))
  }

  /** What `StructDictSlot` yields: a slot, or a jump to the taken branch
      (the key names no field). */
  datatype SlotResult = SlotIs(slot: nat) | Taken

  /** The out-of-line lookup's answer, with `kInvalidSlot` turned into a
      jump to the taken branch. */
  function HelperResult(slot: int): (r: SlotResult)
    requires slot >= 0
    ensures r == Taken <==> slot == KInvalidSlot
    ensures r.SlotIs? ==> r.slot == slot
  {
    if slot == KInvalidSlot then Taken else SlotIs(slot)
  }

  /** The code shapes `cgStructDictSlot` emits. */
  datatype SlotPath =
    | ConstantSlot(slot: nat)   // the slot, folded at compile time
    | ConstantTaken             // an unconditional jump: the key is no field
    | NonStaticHelper           // the out-of-line lookup only
    | StaticProbe               // the hash probe, a mismatch jumps
    | ProbeOrHelper             // the hash probe, then a static check, then the lookup

  /** The code shape chosen from the layout and the key's type. */
  function SlotPathFor(shape: Shape, key: KeyType): (p: SlotPath)
    requires shape.IsStruct() && key.IsStr()
    ensures (p.ConstantSlot? || p.ConstantTaken?) <==> key.ConstStrKey? && shape.ConcreteStruct?
    ensures p.NonStaticHelper? <==> !key.MaybeStatic()
    ensures p.StaticProbe? ==> key.DefinitelyStatic()
    ensures p.ProbeOrHelper? ==> key.MaybeStatic() && !key.DefinitelyStatic()
  {
    if key.ConstStrKey? && shape.ConcreteStruct? then
      var s := KeySlot(shape.layout, key.str.text);
      if s == KInvalidSlot then ConstantTaken else ConstantSlot(s)
    else if !key.MaybeStatic() then NonStaticHelper
    else if key.DefinitelyStatic() then StaticProbe
    else ProbeOrHelper
  }

  /** The perfect-hash entry the probe reads: the one at the key's color. */
  function ProbeEntry(cfg: Config, table: seq<HashEntry>, key: StrObj): (e: HashEntry)
    requires cfg.Valid() && |table| == cfg.TableEntries()
    ensures e in table
  {
    table[MaskColor(cfg, key.color)]
  }

  /** `cgStructDictSlot` at run time. `actual` is the layout of the array
      the code runs on: the type's own layout when that is concrete, the one
      registered at the array's layout index when it is abstract; both the
      probed table and the out-of-line lookup are that layout's. Every code
      shape computes the content-based lookup: on a well-formed layout, for
      a key of the given type that respects interning, the slot produced is
      the key's field's slot, and the taken branch is followed exactly when
      the key names no field. */
  function StructDictSlot(cfg: Config, g: Geometry, shape: Shape, keyType: KeyType, key: StrObj,
                          actual: StructLayout): (r: SlotResult)
    requires cfg.Valid() && shape.IsStruct() && keyType.IsStr()
    requires shape.ConcreteStruct? ==> shape.layout == actual
    requires |actual.hashTable| == cfg.TableEntries()
    ensures WellFormedLayout(cfg, g, actual) && keyType.Describes(key) && key.addr != 0
            && (forall i :: 0 <= i < |actual.fields| ==> Interned(key, actual.fields[i].name)) ==>
      r == HelperResult(KeySlot(actual, key.text))
  {
    var r := match SlotPathFor(shape, keyType)
      case ConstantSlot(s) => SlotIs(s)
      case ConstantTaken => Taken
      case NonStaticHelper => HelperResult(KeySlot(actual, key.text))
      case StaticProbe =>
        var e := ProbeEntry(cfg, actual.hashTable, key);
        if e.str == key.addr then SlotIs(e.slot) else Taken
      case ProbeOrHelper =>
        var e := ProbeEntry(cfg, actual.hashTable, key);
        if e.str == key.addr then SlotIs(e.slot)
        else if key.isStatic then Taken
        else HelperResult(KeySlot(actual, key.text));
    if WellFormedLayout(cfg, g, actual) && key.addr != 0
       && (forall i :: 0 <= i < |actual.fields| ==> Interned(key, actual.fields[i].name)) then
      ProbeSound(cfg, g, actual, key);
      r
    else
      r
  }

  /** Soundness of the probe on a well-formed layout, for a key that
      respects interning: a matching entry holds the key's slot, and a
      static key whose entry does not match names no field. */
  lemma ProbeSound(cfg: Config, g: Geometry, layout: StructLayout, key: StrObj)
    requires cfg.Valid() && WellFormedLayout(cfg, g, layout)
    requires key.addr != 0
    requires forall i :: 0 <= i < |layout.fields| ==> Interned(key, layout.fields[i].name)
    ensures var e := ProbeEntry(cfg, layout.hashTable, key);
      && (e.str == key.addr ==> e.slot == KeySlot(layout, key.text))
      && (key.isStatic && e.str != key.addr ==> KeySlot(layout, key.text) == KInvalidSlot)
  {
    var e := ProbeEntry(cfg, layout.hashTable, key);
    var c := MaskColor(cfg, key.color);
    if e.str == key.addr {
      var i := e.slot;
      assert layout.fields[i].name == key by {
        assert Interned(key, layout.fields[i].name);
      }
      KeySlotOfField(cfg, g, layout, i);
    }
    if key.isStatic && e.str != key.addr {
      var s := KeySlot(layout, key.text);
      if s != KInvalidSlot {
        assert false;
      }
    }
  }

  /** In a well-formed layout the lookup of a field's name finds that field. */
  lemma KeySlotOfField(cfg: Config, g: Geometry, layout: StructLayout, i: nat)
    requires cfg.Valid() && WellFormedLayout(cfg, g, layout)
    requires i < |layout.fields|
    ensures KeySlot(layout, layout.fields[i].name.text) == i
  {
    var s := KeySlot(layout, layout.fields[i].name.text);
    assert s != KInvalidSlot;
  }

  /** The color index as the code computes it: the color byte, masked with
      `kMaxColor` unless the mask is all ones, then doubled (`lea c[c]`)
      for 16-byte entries so that `c * 8` is the entry's offset. */
  function ScaledColor(cfg: Config, color: bv8): (c: nat)
    requires cfg.Valid()
    ensures c * 8 == MaskColor(cfg, color) * cfg.hashEntrySize
  {
    var masked := if cfg.colorMask == 0xFF then color as nat else (color & cfg.colorMask) as nat;
    assert masked == MaskColor(cfg, color);
    if cfg.hashEntrySize == 16 then
      assert (masked + masked) * 8 == masked * 16;
      masked + masked
    else
      assert masked * 8 == masked * cfg.hashEntrySize;
      masked
  }

  /** Addresses of the probed entry's slot byte and string pointer. */
  datatype ProbeAddrs = ProbeAddrs(slotAt: int, strAt: int)

  /** The probe's addresses as emitted. A concrete layout's table is at the
      constant `tableAddr`. For an abstract one the table is found from the
      array's 16-bit layout index, shifted by log2 of the table size, plus
      the table set's address; the color term is computed at compile time
      when the key is a constant. */
  function ProbeAddresses(cfg: Config, concrete: bool, keyIsConst: bool, color: bv8,
                          tableAddr: nat, hashTableSet: nat, layoutIndex: nat): (r: ProbeAddrs)
    requires cfg.Valid()
    ensures concrete ==>
      && r.slotAt == tableAddr + MaskColor(cfg, color) * cfg.hashEntrySize + cfg.slotOffset
      && r.strAt == tableAddr + MaskColor(cfg, color) * cfg.hashEntrySize + cfg.strOffset
    ensures !concrete ==>
      var entry := hashTableSet + layoutIndex * Pow2(cfg.tableShift) + MaskColor(cfg, color) * cfg.hashEntrySize;
      && (r.slotAt - (entry + cfg.slotOffset)) % TwoTo64 == 0
      && (r.strAt - (entry + cfg.strOffset)) % TwoTo64 == 0
  {
    if concrete then
      var c := ScaledColor(cfg, color);
      ProbeAddrs(tableAddr + c * 8 + cfg.slotOffset, tableAddr + c * 8 + cfg.strOffset)
    else
      var hashTableOffset := ShiftLeft64(layoutIndex, cfg.tableShift);
      if keyIsConst then
        var offWithColor := (color & cfg.colorMask) as nat * cfg.hashEntrySize;
        ProbeAddrs(hashTableOffset + (hashTableSet + (offWithColor + cfg.slotOffset)),
                   hashTableOffset + (hashTableSet + (offWithColor + cfg.strOffset)))
      else
        var base := hashTableOffset + hashTableSet;
        var c := ScaledColor(cfg, color);
        ProbeAddrs(base + c * 8 + cfg.slotOffset, base + c * 8 + cfg.strOffset)
  }

  /** The probed entry lies inside its table, whatever the color byte holds
      (a non-static key's color is junk). */
  lemma ProbeStaysInTable(cfg: Config, color: bv8)
    requires cfg.Valid()
    ensures MaskColor(cfg, color) * cfg.hashEntrySize + cfg.hashEntrySize
         <= cfg.TableEntries() * cfg.hashEntrySize
  {
    var m := MaskColor(cfg, color);
    if cfg.hashEntrySize == 8 {
      assert (m + 1) * 8 <= cfg.TableEntries() * 8;
    } else {
      assert (m + 1) * 16 <= cfg.TableEntries() * 16;
    }
  }

  /** For an abstract layout the probed entry lies inside table number
      `layoutIndex` of the table set: the shift by `tableShift` strides over
      whole tables. */
  lemma ProbeStaysInIndexedTable(cfg: Config, color: bv8, layoutIndex: nat)
    requires cfg.Valid()
    ensures var stride, entry := Pow2(cfg.tableShift), MaskColor(cfg, color) * cfg.hashEntrySize;
      layoutIndex * stride <= layoutIndex * stride + entry
      && layoutIndex * stride + entry + cfg.hashEntrySize <= (layoutIndex + 1) * stride
  {
    var m := MaskColor(cfg, color);
    var entry := m * cfg.hashEntrySize;
    ProbeStaysInTable(cfg, color);
    if cfg.hashEntrySize == 8 {
      assert cfg.TableEntries() * cfg.hashEntrySize == 8 * cfg.TableEntries();
    } else {
      assert cfg.TableEntries() * cfg.hashEntrySize == 16 * cfg.TableEntries();
    }
    StrideBound(layoutIndex, Pow2(cfg.tableShift), entry, cfg.hashEntrySize);
  }

  /** An entry that fits in one stride of a table fits in table `i`. */
  lemma StrideBound(i: nat, stride: nat, off: nat, size: nat)
    requires off + size <= stride
    ensures i * stride + off + size <= (i + 1) * stride
  {
    assert (i + 1) * stride == i * stride + stride;
  }
}
