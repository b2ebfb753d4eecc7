# Lowering of bespoke array operations (HHVM JIT)

This project models the part of HHVM's JIT that lowers IR instructions on
bespoke (specialised) arrays to machine code, `irlower-bespoke.cpp`, and
proves properties of the model. The model does not describe instruction
emission. It describes what the emitted code means:

- which helper a call goes to, with how many arguments, and whether the VM
  state is synced first;
- which addresses the loads and stores touch;
- which branch is taken;
- which bytes of the array object end up written.

Modules:

- `Machine`: machine vocabulary shared by the other modules. It covers
  64-bit reinterpretation (`ToInt64`), signed 32-bit displacements,
  `movtql`, `movtqb` and `shlqi`, and the little-endian images of 32-bit
  stores. It also holds the byte memory that the generated code writes, an
  `array<Byte>`, and its update `Overlay`.
- `Word64`: the 64-bit words of `cgInitStructPositions` as `bv64`: their
  byte lanes, the little-endian image of a 64-bit store (`Le64`), and the
  effect of OR-ing a shifted byte into a word.
- `ArrayTypes`: the compile-time facts the lowering reads, and the struct
  layouts. The facts are the array's layout, its container kind, its key
  kind, and whether it may be a LoggingArray. The layouts carry their perfect
  hash table and the invariants a registered layout satisfies. This module
  also defines `KeySlot`, the content-based slot lookup that every fast path
  must agree with.
- `Dispatch`: the `CALL_TARGET` and `CALL_TARGET_SYNTH` priority chains, the
  `cgBespoke*` instructions (target, argument count, sync mode), and
  `cgBespokeElem`.
- `Monotype`: the MonotypeDict and MonotypeVec element addresses
  (`ptrToMonotypeDictElm`, `cgLdMonotypeDict{Key,Val}`,
  `cgLdMonotypeVecElem`).
- `StructSlot`: `getStructSlot` and `cgStructDictSlot`, covering both the
  code shape it picks and the perfect-hash probe addresses.
- `StructStorage`: `cgStructDictElemAddr`, `cgStructDictTypeBoundCheck` and
  `cgStructDictUnset`.
- `StructWrites`: the imperative part. It covers `cgInitStructPositions`
  (nested loops that pack slot bytes into 8-byte words and store them),
  `cgNewBespokeStructDict` (two loops that fill the slot buffer),
  `cgStructDictAddNextSlot` (one byte store plus a 32-bit size update), and
  `cgAllocBespokeStructDict`.

The three methods that write memory each state their new state exactly.
`InitStructPositions` and `StructDictAddNextSlot` state it as a function of
the old bytes (`InitializedPositions`, `AddedNextSlot`). `NewBespokeStructDict`
fills a fresh buffer whose contents are `PaddedSlots` of the slots. Separate
lemmas then prove what those functions promise.

## Model

| member | source | states |
|---|---|---|
| Machine.ToInt64 | hphp/runtime/vm/jit/irlower-bespoke.cpp:393-395 | a `size_t` offset read as `int64_t` is in the signed 64-bit range, is congruent to the exact value modulo 2^64, and equals it when that value is in range |
| Machine.Low32 | hphp/runtime/vm/jit/irlower-bespoke.cpp:399-402 | `movtql` keeps a value below 2^32 that is congruent to its input modulo 2^32, and leaves 32-bit values unchanged |
| Machine.ShiftLeft64 | hphp/runtime/vm/jit/irlower-bespoke.cpp:702-703 | `shlqi` gives a 64-bit value congruent to `x * 2^s` modulo 2^64 |
| Machine.LowByte | hphp/runtime/vm/jit/irlower-bespoke.cpp:891-892 | `movtqb` keeps a byte congruent to its input modulo 256 |
| Machine.Le32 | hphp/runtime/vm/jit/irlower-bespoke.cpp:514 | the four bytes of a 32-bit store read back, by a zero-extending 32-bit load, as the stored value |
| Machine.Le32RoundTrip | hphp/runtime/vm/jit/irlower-bespoke.cpp:886-887 | storing the value a 32-bit load read gives back the same four bytes (the inverse direction of `Le32`) |
| Word64.InsertIntoClearLane | hphp/runtime/vm/jit/irlower-bespoke.cpp:533 | OR-ing `slot << 8j` into a word whose lane j is clear puts `slot` in lane j |
| Word64.InsertLeavesOtherLanes | hphp/runtime/vm/jit/irlower-bespoke.cpp:533 | that OR leaves every other byte lane of the word unchanged |
| Word64.OrIntoClearLane | hphp/runtime/vm/jit/irlower-bespoke.cpp:533 | the same for the `uint8_t` slot and lane number j: lane j of the new word reads back as the slot's byte value, every other lane as before |
| Word64.Le64 | hphp/runtime/vm/jit/irlower-bespoke.cpp:537 | the 8 bytes of a 64-bit store are the word's lanes, least significant first |
| Machine.OverlayAt | hphp/runtime/vm/jit/irlower-bespoke.cpp:537 | after a store of `bs` at `off`, the stored range holds `bs` and every byte outside it is unchanged |
| Machine.StoreBytes | hphp/runtime/vm/jit/irlower-bespoke.cpp:537 | a store writes its bytes at its offset and changes nothing else (new state is `Overlay` of the old one) |
| ArrayTypes.MaskColor | hphp/runtime/vm/jit/irlower-bespoke.cpp:655-670 | `color & kMaxColor` always indexes an entry of the perfect-hash table |
| ArrayTypes.FindSlot | hphp/runtime/vm/jit/irlower-bespoke.cpp:489-490 | reference lookup: the first field with the key's name, and none exactly when no field has that name |
| ArrayTypes.KeySlot | hphp/runtime/vm/jit/irlower-bespoke.cpp:489-490 | `keySlot` yields a slot whose field has the key's name, or `kInvalidSlot` exactly when no field has it |
| Dispatch.FirstApplicable | hphp/runtime/vm/jit/irlower-bespoke.cpp:106-123 | reference choice: the first candidate the type allows, and none only when no candidate is allowed |
| Dispatch.CallTarget | hphp/runtime/vm/jit/irlower-bespoke.cpp:106-148 | the chain's target is one of the operation's implementations, implements that operation, and is usable for the array's type |
| Dispatch.FirstApplicableAt | hphp/runtime/vm/jit/irlower-bespoke.cpp:106-123 | when no earlier candidate is allowed, the first applicable candidate is the one at index k |
| Dispatch.CallTargetIsFirstApplicable | hphp/runtime/vm/jit/irlower-bespoke.cpp:106-148 | the chain picks the most specialised allowed implementation: vtable entry, then `BespokeArray`, then vanilla vec/dict/keyset (synthesized for `_SYNTH`), then the generic one |
| Dispatch.DestructorForArrayLike | hphp/runtime/vm/jit/irlower-bespoke.cpp:150-154 | the destructor is the first allowed implementation of `Release` |
| Dispatch.CopyFuncForArrayLike | hphp/runtime/vm/jit/irlower-bespoke.cpp:156-160 | the copy function is the first allowed implementation of `Copy` |
| Dispatch.ElemCall | hphp/runtime/vm/jit/irlower-bespoke.cpp:334-380 | Elem always syncs; bespoke layouts pass 3 arguments and use the vtable's Elem entry matching the key or the `BespokeArray` fallback (int variant for a key that may be either); other layouts pass 2 and use a helper for the key kind and `throwOnMissing`; the generic helper is used only when the dict, or the keyset with a non-throwing lookup, does not apply |
| Dispatch.Lower | hphp/runtime/vm/jit/irlower-bespoke.cpp:162-330 | every lowered call goes to a target that is usable for the array's type |
| Dispatch.LowerSyncPolicy | hphp/runtime/vm/jit/irlower-bespoke.cpp:162-330 | a call syncs exactly when the instruction is GetThrow, Set, Unset, Append or Elem, or is Get or EscalateToVanilla on a type that may be a LoggingArray; iteration never syncs |
| Dispatch.LowerFollowsDispatchOrder | hphp/runtime/vm/jit/irlower-bespoke.cpp:162-310 | every table-driven instruction calls the first allowed implementation of its operation; only GetThrow uses the synthesized vanilla functions |
| Dispatch.EscalationTarget | hphp/runtime/vm/jit/irlower-bespoke.cpp:311-330 | escalation calls the layout's own entry exactly when the vtable has one, and `BespokeArray::ToVanilla` exactly when it does not |
| Dispatch.LowerMatchesKeyKind | hphp/runtime/vm/jit/irlower-bespoke.cpp:162-245 | Get, GetThrow, Set and Unset call the int variant exactly when the key is known to be an int, and the string variant otherwise |
| Dispatch.ElemMatchesKeyKind | hphp/runtime/vm/jit/irlower-bespoke.cpp:334-380 | Elem uses an int helper exactly when the key is not known to be a string |
| Monotype.ScaledPos | hphp/runtime/vm/jit/irlower-bespoke.cpp:399-404 | the index register holding a scaled position is even and below 2^32 |
| Monotype.PtrToMonotypeDictElm | hphp/runtime/vm/jit/irlower-bespoke.cpp:390-406 | a displacement is used only for a constant position whose offset fits in 32 bits, and it addresses the element modulo 2^64; the register form addresses element `pos mod 2^31` |
| Monotype.RuntimeDictOffset | hphp/runtime/vm/jit/irlower-bespoke.cpp:398-405 | the truncate, shift and zero-extend sequence, scaled by 8, is 16 times `pos mod 2^31` |
| Monotype.DictElmAddressExact | hphp/runtime/vm/jit/irlower-bespoke.cpp:390-406 | for positions below 2^31, both forms address exactly `entriesOffset + off + 16 * pos` |
| Monotype.ScaledPosPeriodic | hphp/runtime/vm/jit/irlower-bespoke.cpp:399-404 | positions 2^31 apart give the same scaled index |
| Monotype.DictElmRuntimePositionWraps | hphp/runtime/vm/jit/irlower-bespoke.cpp:397-405 | the register form reads the same address for positions 2^31 apart |
| Monotype.LdMonotypeDictKey | hphp/runtime/vm/jit/irlower-bespoke.cpp:416-436 | the key is read from the element's key field, at `entriesOffset + keyOffset + 16 * pos` for positions below 2^31; its type is `KindOfInt64` exactly when the layout index has a bit of the int-key mask set, else `KindOfString` |
| Monotype.LdMonotypeDictVal | hphp/runtime/vm/jit/irlower-bespoke.cpp:438-452 | the value is read from the element's value field, at `entriesOffset + valOffset + 16 * pos` for positions below 2^31, and its type from the dict's single type byte |
| Monotype.KeyAndValueShareElement | hphp/runtime/vm/jit/irlower-bespoke.cpp:416-452 | a key and a value loaded at the same position come from the same element |
| Monotype.LdMonotypeVecElem | hphp/runtime/vm/jit/irlower-bespoke.cpp:454-471 | the value operand is a displacement only for a constant index that fits; it always addresses `entriesOffset + 8 * idx` modulo 2^64, exactly when that is in signed 64-bit range; the type is the vec's shared type byte |
| StructSlot.GetStructSlot | hphp/runtime/vm/jit/irlower-bespoke.cpp:482-491 | there is no answer exactly for an abstract layout; otherwise the result is the slot of the field with the key's name, or `kInvalidSlot` exactly when no field has it |
| StructSlot.HelperResult | hphp/runtime/vm/jit/irlower-bespoke.cpp:628-632 | the out-of-line lookup jumps to the taken branch exactly on `kInvalidSlot`, and otherwise yields its slot |
| StructSlot.SlotPathFor | hphp/runtime/vm/jit/irlower-bespoke.cpp:594-744 | the code is folded to a constant exactly for a constant key on a concrete layout; the lookup alone is used exactly for a key that cannot be static; a probe without a fallback is used only for a definitely static key |
| StructSlot.ProbeEntry | hphp/runtime/vm/jit/irlower-bespoke.cpp:683-730 | the probe reads an entry of the layout's table |
| StructSlot.ProbeSound | hphp/runtime/vm/jit/irlower-bespoke.cpp:732-757 | on a well-formed layout an entry whose string matches the key holds the key's slot, and a static key whose entry does not match names no field |
| StructSlot.StructDictSlot | hphp/runtime/vm/jit/irlower-bespoke.cpp:581-758 | on a well-formed layout with an interned key, every code shape yields the key's field slot, and jumps to taken exactly when the key names no field |
| StructSlot.ScaledColor | hphp/runtime/vm/jit/irlower-bespoke.cpp:655-681 | the color register times 8 is the byte offset of the color's entry, for 8- and 16-byte entries |
| StructSlot.ProbeAddresses | hphp/runtime/vm/jit/irlower-bespoke.cpp:683-720 | the probe reads the slot and the string of the key's entry: in the constant table for a concrete layout, and for an abstract one (modulo 2^64) in the table `layoutIndex` of the table set |
| StructSlot.ProbeStaysInTable | hphp/runtime/vm/jit/irlower-bespoke.cpp:655-681 | whatever the color byte holds, the probed entry lies inside the table |
| StructSlot.ProbeStaysInIndexedTable | hphp/runtime/vm/jit/irlower-bespoke.cpp:697-703 | for an abstract layout the probed entry lies inside table `layoutIndex` of the table set, since the shift strides over whole tables |
| StructStorage.RoundUp8 | hphp/runtime/vm/jit/irlower-bespoke.cpp:560 | `(n + 7) & ~7` is the least multiple of 8 not below n |
| StructStorage.StructDictElemAddr | hphp/runtime/vm/jit/irlower-bespoke.cpp:760-808 | the value is at `valueOffset + 8 * slot` for a concrete layout and at `8 * (valBegin + slot)` for an abstract one; the type byte is at `staticTypeOffset + slot` |
| StructStorage.ElemAddrIndependentOfShape | hphp/runtime/vm/jit/irlower-bespoke.cpp:760-808 | both forms give the same address on a StructDict of that layout, inside its value and type arrays |
| StructStorage.TypeBoundCheck | hphp/runtime/vm/jit/irlower-bespoke.cpp:861-871 | a field's type bound: a value fails exactly when its data type shares a bit with the field's type mask, and otherwise passes through unchanged |
| StructStorage.StructDictTypeBoundCheck | hphp/runtime/vm/jit/irlower-bespoke.cpp:810-871 | the check jumps to taken exactly when the data type shares a bit with the mask byte read from Field `slot` of the layout pointer (the constant, or the pointer loaded from `layoutsForJIT`), and otherwise passes the value through unchanged |
| StructStorage.TypeBoundCheckReadsField | hphp/runtime/vm/jit/irlower-bespoke.cpp:822-870 | when the constant or the `layoutsForJIT` entry points at the array's layout, both shapes read Field `slot`'s own mask and agree with that field's type bound |
| StructStorage.TypeMaskAt | hphp/runtime/vm/jit/irlower-bespoke.cpp:841-859 | the mask is read from `fieldsOffset + slot * sizeof(Field) + typeMaskOffset`, for 8- and 16-byte Fields |
| StructStorage.TypeBoundCheckMonotone | hphp/runtime/vm/jit/irlower-bespoke.cpp:861-870 | a value whose type bits are a subset of a passing value's passes too |
| StructStorage.StructDictUnset | hphp/runtime/vm/jit/irlower-bespoke.cpp:911-932 | an abstract layout, or a required field, goes to the generic synced unset; an absent key returns the array exactly when no field has that name; on a concrete layout the first field with the key's name decides: a required one takes the generic unset, an optional one calls `RemoveStrInSlot` with its slot, without syncing |
| StructWrites.SizeField | hphp/runtime/vm/jit/irlower-bespoke.cpp:886-887 | the zero-extended 32-bit size is below 2^32 |
| StructWrites.AllocBespokeStructDict | hphp/runtime/vm/jit/irlower-bespoke.cpp:495-506 | allocation calls `AllocStructDict` with two arguments and no sync |
| StructWrites.PositionImageBytes | hphp/runtime/vm/jit/irlower-bespoke.cpp:519-538 | the stored bytes cover whole 8-byte words: `pad` bytes of `KindOfUninit`, then the slots, then zeros |
| StructWrites.PositionWord | hphp/runtime/vm/jit/irlower-bespoke.cpp:523-534 | the inner loop ORs the shifted bytes into a `uint64_t` whose 64-bit store writes exactly bytes `i..i+8` of the position image (lane j: the byte for positions index `i + j - pad`) |
| StructWrites.PositionsStart | hphp/runtime/vm/jit/irlower-bespoke.cpp:521-536 | the first store is at the 8-aligned offset at most 7 bytes before the positions array |
| StructWrites.InitializedSize | hphp/runtime/vm/jit/irlower-bespoke.cpp:514 | after the initialisation the size field reads `numSlots` |
| StructWrites.InitializedSlots | hphp/runtime/vm/jit/irlower-bespoke.cpp:519-538 | slot k is at `positionOffset + k`, the bytes between the aligned start and `positionOffset` hold `KindOfUninit`, and the rest of the last word is 0 |
| StructWrites.InitializedFrame | hphp/runtime/vm/jit/irlower-bespoke.cpp:508-539 | no byte outside the size field and the stored words changes |
| StructWrites.InitStructPositions | hphp/runtime/vm/jit/irlower-bespoke.cpp:508-539 | the array's new bytes are `InitializedPositions` of the old ones |
| StructWrites.StorePositions | hphp/runtime/vm/jit/irlower-bespoke.cpp:519-538 | the store loop writes the position image at the aligned start, one 64-bit word at a time |
| StructWrites.PaddedSlots | hphp/runtime/vm/jit/irlower-bespoke.cpp:560-567 | the slot buffer is a whole number of 8-byte words: the slots, then `KindOfUninit` |
| StructWrites.NewBespokeStructDict | hphp/runtime/vm/jit/irlower-bespoke.cpp:555-579 | the two loops fill a fresh buffer with `PaddedSlots`, and `MakeStructDict` is called with 5 arguments and no sync |
| StructWrites.NextPositionAt | hphp/runtime/vm/jit/irlower-bespoke.cpp:886-901 | on a StructDict of a well-formed layout whose header holds the field count, both shapes store at `positionOffset + size` |
| StructWrites.NextPositionInsidePositions | hphp/runtime/vm/jit/irlower-bespoke.cpp:886-901 | while the dict is not full that address is inside the positions array, before the value array |
| StructWrites.AddedNextSlotContents | hphp/runtime/vm/jit/irlower-bespoke.cpp:874-909 | the slot's low byte is at position `size`, the size becomes `(size + 1) mod 2^32`, and no other byte changes |
| StructWrites.StructDictAddNextSlot | hphp/runtime/vm/jit/irlower-bespoke.cpp:874-909 | the array's new bytes are `AddedNextSlot` of the old ones |

## Left out

- Instruction emission and register allocation (`cgCallHelper`, `argGroup`, `vmain`/`vcold`, `cond`, `fwdJcc`, the vasm instructions themselves): the model states the addresses, targets, branches and stored bytes the code produces.
- The profiling and logging instructions (`cgLogArrayReach`, `cgLogGuardFailure`, `cgNewLoggingArray`, `cgProfileArrLikeProps`): these are calls into profiling code, chosen at most by a configuration switch (`cgNewLoggingArray` picks `makeBespokeForTesting` or `maybeMakeLoggingArray` by `shouldTestBespokeArrayLikes()`).
- `maybeLogging`: the JIT type lattice is not modelled, so the type test `t.maybe(loggingArray)` becomes the flag `ArrType.maybeLogging`. The flag is free, so the model also admits combinations the lattice rules out (a vanilla layout that may be logging); every property holds for them too.
- `cgLdMonotypeDictTombstones` and `cgInitStructElem` are not part of this model; they are a single load and a single typed store.
- `StructLayout::valueOffsetForSlot` and `typeOffsetForSlot` are defined outside the file. `ValueOffsetForSlot` and `TypeOffsetForSlot` give them the formulas `valueOffset + 8 * slot` and `staticTypeOffset + slot`. That the constant-slot form of `StructDictElemAddr` agrees with the register form rests on these formulas.
- StructSlot.StructDictSlot: the probe's memory read is abstracted. The probe reads `actual.hashTable` at the key's color as a value; `ProbeAddresses` states the addresses the emitted loads use, but no lemma ties the bytes at those addresses to the table's entries.
- The memory the type-bound check reads is a parameter: `load8` and `load1` read 8 bytes and 1 byte at an address. `HoldsFieldMasks` states what a layout object's bytes hold.
- The other callees are given no bodies. This covers `BespokeArray::*`, the vtable functions, the vanilla and `ArrayData` methods, the `MInstrHelpers` Elem helpers, `StructDict::AllocStructDict`, `MakeStructDict` and `RemoveStrInSlot`. A call target is a name, and nothing is claimed about what the callee does, including escalation's preservation of contents.
- `StructLayout::keySlot` and `keySlotNonStatic` are given the reference meaning `KeySlot`: the first field with that name. The registered layout's invariants, such as distinct names and the perfect-hash placement, are the preconditions in `WellFormedLayout`.
- The header constants are parameters (`Config`, `Geometry`, `MonotypeGeometry`). This covers the offsets, `kMaxColor`, `sizeof(PerfectHashEntry)`, `sizeof(Field)`, `sizeof(PerfectHashTable)` and `KindOfUninit`. They are constrained only by what the `static_assert`s in the file demand, and by a `PerfectHashTable` holding one entry per color. `MonotypeDict::elmSize()` is 16 and `sizeof(Value)` is 8.
- Address wrap-around: the struct element, type-mask and position addresses, the concrete-layout probe addresses (`ProbeAddresses`) and the `layoutsForJIT` entry (`LayoutPointerAt`) are computed on unbounded integers. The MonotypeDict and MonotypeVec addresses and the abstract probe addresses are stated modulo 2^64, where the code's 64-bit arithmetic matters.
- StructWrites.PositionWord: the `int32_t` cast of the index is not modelled. Slot counts and the padding are far below 2^31.
- `safe_cast<uint8_t>` on the slots: the slots are bytes from the start.
- StructWrites.InitStructPositions: the code does not check that the stored words lie inside the array object; the model requires it (a `requires` on the object's size).
- StructWrites.StructDictAddNextSlot: the address `size + positionOffset` is assumed to lie inside the array object.
- StructDictSlot: the comparison of the loaded string pointer with the key is modelled as equality of addresses. Low pointers are not distinguished from full ones.
- StructStorage.StructDictUnset: the statements about a concrete layout hold for layouts with at most `kInvalidSlot` fields, where `kInvalidSlot` cannot be a real slot. A registered layout has at most 255 fields.
- Struct values take 8 bytes (`sizeof(Value)`), following the code.
- A key that is only known to be an int or a string (`IntOrStrKey`) reaches the string variant in Get, GetThrow, Set and Unset, because `key <= TInt` fails. It reaches the int variant in Elem, because `key->isA(TStr)` fails. `Dispatch.LowerMatchesKeyKind` and `Dispatch.ElemMatchesKeyKind` state both behaviours as written.
