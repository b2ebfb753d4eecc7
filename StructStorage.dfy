/**
 * Reading and writing a StructDict's storage: the address of a slot's value
 * and type, the type-bound check on a value stored into a slot, removal,
 * appending a slot to the positions array, and the initial positions and
 * slot buffer of a newly made StructDict.
 */
module StructStorage {
  import opened Machine
  import opened ArrayTypes
  import opened Dispatch
  import opened StructSlot

  /** `sizeof(Value)`: the stride of the value array. */
  const ValueSize: nat := 8

  /** The next multiple of 8 (`(n + 7) & ~7`). */
  function RoundUp8(n: nat): (r: nat)
    ensures r % 8 == 0 && n <= r < n + 8
  {
    (n + 7) - (n + 7) % 8
  }

  // ---------------------------------------------------------------------
  // Element addresses

  /** The value and type addresses of a slot, as offsets from the array. */
  datatype TvLval = TvLval(valAt: int, typeAt: int)

  /** `StructLayout::valueOffsetForSlot` (outside this file): the slot's
      8-byte value in the array that starts at `valueOffset`. */
  function ValueOffsetForSlot(layout: StructLayout, slot: nat): nat {
    layout.valueOffset + slot * ValueSize
  }

  /** `StructLayout::typeOffsetForSlot` (outside this file): the slot's type
      byte in the array that starts at `staticTypeOffset`. */
  function TypeOffsetForSlot(g: Geometry, slot: nat): nat {
    g.staticTypeOffset + slot
  }

  /** `cgStructDictElemAddr`. A concrete layout with a constant slot uses the
      layout's per-slot offsets; with a slot in a register, the layout's
      value offset plus `slot * sizeof(Value)`. An abstract layout reads the
      value array's start, in 8-byte words, from the header byte
      `valueWords`. The type byte is always `slot` bytes past the static
      type offset. */
  function StructDictElemAddr(g: Geometry, shape: Shape, slot: nat, slotIsConst: bool,
                              valueWords: Byte): (r: TvLval)
    requires shape.IsStruct()
    ensures shape.ConcreteStruct? ==>
      r == TvLval(ValueOffsetForSlot(shape.layout, slot), TypeOffsetForSlot(g, slot))
    ensures shape.AbstractStruct? ==>
      r == TvLval((valueWords + slot) * ValueSize, TypeOffsetForSlot(g, slot))
  {
    if shape.ConcreteStruct? && slotIsConst then
      TvLval(ValueOffsetForSlot(shape.layout, slot), TypeOffsetForSlot(g, slot))
    else
      var valAt :=
        if shape.ConcreteStruct? then slot * ValueSize + shape.layout.valueOffset
        else (valueWords + slot) * ValueSize;
      TvLval(valAt, slot * 1 + g.staticTypeOffset)
  }

  /** Whether the type names the layout or not, the address is the same:
      the header byte of a StructDict with layout `actual` holds its value
      offset in words. On a well-formed layout the address is inside the
      value array and the type array for every field's slot. */
  lemma ElemAddrIndependentOfShape(cfg: Config, g: Geometry, shape: Shape, actual: StructLayout,
                                   slot: nat, slotIsConst: bool, valueWords: Byte)
    requires cfg.Valid() && WellFormedLayout(cfg, g, actual) && shape.IsStruct()
    requires shape.ConcreteStruct? ==> shape.layout == actual
    requires valueWords * 8 == actual.valueOffset
    requires slot < |actual.fields|
    ensures var r := StructDictElemAddr(g, shape, slot, slotIsConst, valueWords);
      && r == TvLval(actual.valueOffset + ValueSize * slot, g.staticTypeOffset + slot)
      && actual.valueOffset <= r.valAt && r.valAt + ValueSize <= actual.valueOffset + ValueSize * |actual.fields|
      && g.staticTypeOffset <= r.typeAt < g.staticTypeOffset + |actual.fields|
  {
  }

  // ---------------------------------------------------------------------
  // Type-bound check

  /** The type bound of field `slot` of a layout: a value fails it when its
      data type shares a bit with the field's type mask, and is passed on
      unchanged otherwise. */
  function TypeBoundCheck(actual: StructLayout, slot: nat, v: TypedValue): (r: Option<TypedValue>)
    requires slot < |actual.fields|
    ensures r.Some? ==> r.value == v
    ensures r.None? <==> v.dataType & actual.fields[slot].typeMask != 0
  {
    if v.dataType & actual.fields[slot].typeMask != 0 then None else Some(v)
  }

  /** Where an abstract layout's pointer is loaded from: entry `layoutIndex`
      of the `layoutsForJIT` table of 8-byte pointers. */
  function LayoutPointerAt(layoutsForJIT: nat, layoutIndex: nat): nat {
    layoutsForJIT + layoutIndex * 8
  }

  /** The layout pointer the check reads the mask through: the constant
      address of a concrete layout, or, for an abstract one, the pointer
      `load8` reads from entry `layoutIndex` of `layoutsForJIT`. */
  function LayoutPointer(shape: Shape, layoutAddr: nat, layoutsForJIT: nat, layoutIndex: nat,
                         load8: nat -> nat): nat
  {
    if shape.ConcreteStruct? then layoutAddr else load8(LayoutPointerAt(layoutsForJIT, layoutIndex))
  }

  /** The address of the type mask the check loads: the slot, doubled when
      a Field takes 16 bytes, scaled by 8, plus the mask's offset in a Field
      and the Field array's offset in the layout. It is the mask byte of
      Field number `slot`. */
  function TypeMaskAt(cfg: Config, g: Geometry, layoutPtr: nat, slot: nat): (r: nat)
    requires cfg.Valid()
    ensures r == layoutPtr + g.fieldsOffset + slot * cfg.fieldSize + g.typeMaskOffset
  {
    var adjustedSlot := if cfg.fieldSize == 16 then slot + slot else slot;
    layoutPtr + (adjustedSlot * 8 + g.typeMaskOffset + g.fieldsOffset)
  }

  /** `cgStructDictTypeBoundCheck` at run time. The layout pointer is the
      constant or the registry entry, the mask byte is read by `load1` from
      Field `slot` of that layout, and the value fails (the taken branch)
      when its data type shares a bit with the mask. */
  function StructDictTypeBoundCheck(cfg: Config, g: Geometry, shape: Shape, layoutAddr: nat,
                                    layoutsForJIT: nat, layoutIndex: nat,
                                    load8: nat -> nat, load1: nat -> bv8,
                                    slot: nat, v: TypedValue): (r: Option<TypedValue>)
    requires cfg.Valid() && shape.IsStruct()
    ensures r.Some? ==> r.value == v
    ensures var ptr := LayoutPointer(shape, layoutAddr, layoutsForJIT, layoutIndex, load8);
      r.None? <==> v.dataType & load1(ptr + g.fieldsOffset + slot * cfg.fieldSize + g.typeMaskOffset) != 0
  {
    var layout := LayoutPointer(shape, layoutAddr, layoutsForJIT, layoutIndex, load8);
    var typeMask := load1(TypeMaskAt(cfg, g, layout, slot));
    if v.dataType & typeMask != 0 then None else Some(v)
  }

  /** The bytes of a layout object at `addr` hold each Field's type mask at
      that Field's mask offset. */
  predicate HoldsFieldMasks(cfg: Config, g: Geometry, addr: nat, actual: StructLayout, load1: nat -> bv8) {
    forall k :: 0 <= k < |actual.fields| ==>
      load1(addr + g.fieldsOffset + k * cfg.fieldSize + g.typeMaskOffset) == actual.fields[k].typeMask
  }

  /** Both shapes check the bound of the field the slot names: when the
      constant (concrete) or the registry entry `layoutIndex` (abstract)
      points at the array's layout object, the check reads Field `slot`'s
      own mask and so agrees with that field's type bound. */
  lemma TypeBoundCheckReadsField(cfg: Config, g: Geometry, shape: Shape, layoutAddr: nat,
                                 layoutsForJIT: nat, layoutIndex: nat,
                                 load8: nat -> nat, load1: nat -> bv8,
                                 actualAddr: nat, actual: StructLayout, slot: nat, v: TypedValue)
    requires cfg.Valid() && shape.IsStruct()
    requires shape.ConcreteStruct? ==> layoutAddr == actualAddr
    requires shape.AbstractStruct? ==> load8(LayoutPointerAt(layoutsForJIT, layoutIndex)) == actualAddr
    requires HoldsFieldMasks(cfg, g, actualAddr, actual, load1)
    requires slot < |actual.fields|
    ensures StructDictTypeBoundCheck(cfg, g, shape, layoutAddr, layoutsForJIT, layoutIndex, load8, load1, slot, v)
         == TypeBoundCheck(actual, slot, v)
  {
    assert LayoutPointer(shape, layoutAddr, layoutsForJIT, layoutIndex, load8) == actualAddr;
  }

  /** The check is monotone in the data type's bits: a value whose type
      has no bit that a passing value's type lacks passes as well. */
  lemma TypeBoundCheckMonotone(actual: StructLayout, slot: nat, v: TypedValue, w: TypedValue)
    requires slot < |actual.fields|
    requires w.dataType & !v.dataType == 0
    requires TypeBoundCheck(actual, slot, v).Some?
    ensures TypeBoundCheck(actual, slot, w) == Some(w)
  {
  }

  // ---------------------------------------------------------------------
  // Unset

  /** How `cgStructDictUnset` lowers: through the generic unset, by
      returning the array itself, or by a call to `RemoveStrInSlot`. */
  datatype UnsetLowering = FallbackUnset(call: Call) | ReturnInput | RemoveInSlot(call: Call)

  /** `cgStructDictUnset` for a constant key. An abstract layout and a
      required field take the generic unset (removing a required field
      escalates); a key that names no field leaves the array as it is; an
      optional field is removed in place without syncing. */
  function StructDictUnset(t: ArrType, key: StrObj): (r: UnsetLowering)
    requires t.layout.BespokeLayout? && t.layout.shape.IsStruct()
    ensures t.layout.shape.AbstractStruct? ==> r.FallbackUnset?
    ensures r.FallbackUnset? ==> r.call == Lower(BespokeUnset, t, ConstStrKey(key), false) && r.call.sync == Sync
    ensures t.layout.shape.ConcreteStruct? && |t.layout.shape.layout.fields| <= KInvalidSlot ==>
      (r.ReturnInput? <==>
         forall j :: 0 <= j < |t.layout.shape.layout.fields| ==> t.layout.shape.layout.fields[j].name.text != key.text)
    ensures r.RemoveInSlot? ==>
      var fields := t.layout.shape.layout.fields;
      exists s :: 0 <= s < |fields| && fields[s].name.text == key.text && !fields[s].required
        && r.call == Call(StructDictFn(RemoveStrInSlot(s)), 2, NoSync)
    ensures t.layout.shape.ConcreteStruct? &&
      (var fields := t.layout.shape.layout.fields;
       && |fields| <= KInvalidSlot
       && (forall i, j :: 0 <= i < j < |fields| ==> fields[i].name.text != fields[j].name.text)
       && (exists s :: 0 <= s < |fields| && fields[s].name.text == key.text && fields[s].required))
      ==> r.FallbackUnset?
    ensures t.layout.shape.ConcreteStruct? && |t.layout.shape.layout.fields| <= KInvalidSlot ==>
      var fields := t.layout.shape.layout.fields;
      forall s :: 0 <= s < |fields| && fields[s].name.text == key.text
                  && (forall j :: 0 <= j < s ==> fields[j].name.text != key.text) ==>
        r == (if fields[s].required then FallbackUnset(Lower(BespokeUnset, t, ConstStrKey(key), false))
              else RemoveInSlot(Call(StructDictFn(RemoveStrInSlot(s)), 2, NoSync)))
  {
    var slot := GetStructSlot(t.layout.shape, key);
    if slot.None? then FallbackUnset(Lower(BespokeUnset, t, ConstStrKey(key), false))
    else if slot.value == KInvalidSlot then ReturnInput
    else if t.layout.shape.layout.fields[slot.value].required then
      FallbackUnset(Lower(BespokeUnset, t, ConstStrKey(key), false))
    else RemoveInSlot(Call(StructDictFn(RemoveStrInSlot(slot.value)), 2, NoSync))
  }
}
