/**
 * The compile-time facts the lowering of bespoke array operations consults
 * (layout, container kind, key kind, whether the value may be a
 * LoggingArray), the struct layouts the StructDict code reads, and the
 * content-based slot lookup that every fast path must agree with.
 */
module ArrayTypes {
  import opened Machine

  datatype Option<T> = None | Some(value: T)

  /** The tightest of `TVec`, `TDict`, `TKeyset` the array's type is known to
      be a subtype of, or `AnyKind` when it is none of them. */
  datatype ArrKind = VecKind | DictKind | KeysetKind | AnyKind

  /** What the type of a string key says about it being a static (interned) string. */
  datatype Staticness = Static | NonStatic | MaybeStatic

  /** A string object at run time: its address (0 is the null pointer), its
      contents, whether it is static, and the color byte it carries (junk
      unless the string is static). */
  datatype StrObj = StrObj(addr: nat, text: string, isStatic: bool, color: bv8)

  /** The type of a key operand: an int, a string of some staticness, a
      constant string (constants are static strings), or a key only known to
      be an int or a string. */
  datatype KeyType = IntKey | StrKey(staticness: Staticness) | ConstStrKey(str: StrObj) | IntOrStrKey
  {
    /** `key <= TInt`, equivalently `key->isA(TInt)`. */
    predicate IsInt() { IntKey? }

    /** `key->isA(TStr)`. */
    predicate IsStr() { StrKey? || ConstStrKey? }

    /** `key->type().maybe(TStaticStr)`. */
    predicate MaybeStatic() {
      ConstStrKey? || (StrKey? && staticness != NonStatic)
    }

    /** `key->isA(TStaticStr)`. */
    predicate DefinitelyStatic() {
      ConstStrKey? || (StrKey? && staticness == Static)
    }

    /** The run-time string `k` is a value of this type. */
    predicate Describes(k: StrObj) {
      match this
      case IntKey => false
      case IntOrStrKey => false
      case StrKey(s) => (s == Static ==> k.isStatic) && (s == NonStatic ==> !k.isStatic)
      case ConstStrKey(c) => k == c && c.isStatic
    }
  }

  /** The entries of a bespoke layout's vtable (`fnRelease`, `fnNvGetInt`, ...);
      these are also the names of the `BespokeArray` fallbacks. */
  datatype Fn =
    | Release | Copy
    | NvGetInt | NvGetStr | NvGetIntThrow | NvGetStrThrow
    | SetIntMove | SetStrMove | RemoveIntMove | RemoveStrMove
    | AppendMove | IterBegin | IterLast | IterEnd | GetPosKey | GetPosVal
    | EscalateToVanilla | ElemInt | ElemStr

  /** One field of a struct layout: its (static) name, whether it is
      required, and the mask of data types it rejects. */
  datatype Field = Field(name: StrObj, required: bool, typeMask: bv8)

  /** One perfect-hash entry: the address of a field name (0 when the entry
      is unused) and that field's slot, stored in one byte. */
  datatype HashEntry = HashEntry(str: nat, slot: Byte)

  /** A concrete struct layout: its layout index, fields in slot order, its
      perfect-hash table, and the byte offsets of its positions array and of
      its values array within a StructDict. */
  datatype StructLayout = StructLayout(
    index: nat,
    fields: seq<Field>,
    hashTable: seq<HashEntry>,
    positionOffset: nat,
    valueOffset: nat)

  /** What the type says about a bespoke layout's shape. */
  datatype Shape = ConcreteStruct(layout: StructLayout) | AbstractStruct | OtherShape
  {
    /** `layout.is_struct()`. */
    predicate IsStruct() { ConcreteStruct? || AbstractStruct? }
  }

  /** The array layout the type pins: a bespoke layout (whose vtable entries
      are present or absent), the vanilla layout, or neither (unknown). */
  datatype Layout = BespokeLayout(vtable: set<Fn>, shape: Shape) | VanillaLayout | UnknownLayout

  /** The static type of an array operand. `maybeLogging` is
      `maybeLogging(t)`: the type admits a LoggingArray. */
  datatype ArrType = ArrType(layout: Layout, kind: ArrKind, maybeLogging: bool)

  /** A TypedValue: its payload and its data type byte. */
  datatype TypedValue = TypedValue(data: int, dataType: bv8)

  /** `kInvalidSlot`: the all-ones 32-bit Slot. Only its exceeding every real
      slot matters to the model. */
  const KInvalidSlot: int := 0xFFFF_FFFF

  /** Build configuration of the struct layouts, constrained as the
      `static_assert`s of the lowering code constrain it:
      `colorMask` is `kMaxColor`, `hashEntrySize` is `sizeof(PerfectHashEntry)`
      (8 with low pointers, 16 without), `strOffset`/`slotOffset` are the
      offsets of its two members, `tableShift` is log2 of
      `sizeof(PerfectHashTable)`, a table that holds one entry per color,
      `fieldSize` is `sizeof(Field)`. */
  datatype Config = Config(
    colorMask: bv8,
    hashEntrySize: nat,
    strOffset: nat,
    slotOffset: nat,
    tableShift: nat,
    fieldSize: nat)
  {
    predicate Valid() {
      && colorMask & (colorMask + 1) == 0
      && (hashEntrySize == 8 || hashEntrySize == 16)
      && strOffset < hashEntrySize && slotOffset < hashEntrySize
      && (fieldSize == 8 || fieldSize == 16)
      && (if hashEntrySize == 8 then 8 * TableEntries() else 16 * TableEntries()) <= Pow2(tableShift)
    }

    /** Number of entries of a perfect-hash table. */
    function TableEntries(): nat { colorMask as nat + 1 }
  }

  /** Byte offsets into array objects and layouts that the lowering reads:
      the 32-bit size, the 16-bit layout index, StructDict's one-byte field
      count and one-byte value-array start (in 8-byte words), the size of the
      StructDict header, the static type-array offset, and the offsets of a
      layout's Field array and of a Field's type mask. */
  datatype Geometry = Geometry(
    sizeOffset: nat,
    bespokeIndexOffset: nat,
    numFieldsOffset: nat,
    valueOffsetOffset: nat,
    structDictSize: nat,
    staticTypeOffset: nat,
    fieldsOffset: nat,
    typeMaskOffset: nat)

  /** The color index a color byte selects (`color & kMaxColor`). */
  function MaskColor(cfg: Config, color: bv8): (r: nat)
    requires cfg.Valid()
    ensures r < cfg.TableEntries()
  {
    (color & cfg.colorMask) as nat
  }

  /** The first slot whose field is named `text`, if any. */
  function FindSlot(fields: seq<Field>, text: string): (r: Option<nat>)
    ensures r.Some? ==> r.value < |fields| && fields[r.value].name.text == text
    ensures r.Some? ==> forall j :: 0 <= j < r.value ==> fields[j].name.text != text
    ensures r.None? <==> forall j :: 0 <= j < |fields| ==> fields[j].name.text != text
    decreases |fields|
  {
    if |fields| == 0 then None
    else if fields[0].name.text == text then Some(0)
    else match FindSlot(fields[1..], text)
      case Some(i) => Some(i + 1)
      case None => None
  }

  /** Content-based slot lookup, the meaning of `StructLayout::keySlot` and
      `keySlotNonStatic`: the field's slot, or `kInvalidSlot`. */
  function KeySlot(layout: StructLayout, text: string): (r: int)
    ensures r == KInvalidSlot || (0 <= r < |layout.fields| && layout.fields[r].name.text == text)
    ensures 0 <= r < |layout.fields| ==> forall j :: 0 <= j < r ==> layout.fields[j].name.text != text
    ensures |layout.fields| <= KInvalidSlot ==>
      (r == KInvalidSlot <==> forall j :: 0 <= j < |layout.fields| ==> layout.fields[j].name.text != text)
  {
    match FindSlot(layout.fields, text)
    case Some(i) => i
    case None => KInvalidSlot
  }

  /** Two string objects respect interning: one address is one object, and
      static strings with equal contents are the same object. */
  predicate Interned(a: StrObj, b: StrObj) {
    && (a.addr == b.addr ==> a == b)
    && (a.isStatic && b.isStatic && a.text == b.text ==> a.addr == b.addr)
  }

  /** The invariants a registered struct layout satisfies: at most 255
      fields with distinct static names; a perfect-hash table with one entry
      per color, where each field sits at its own name's color and every
      used entry names a field; positions right after the header and its
      one-byte-per-field type array; an 8-byte-aligned value array after the
      positions whose start, in words, fits in a byte. */
  predicate WellFormedLayout(cfg: Config, g: Geometry, layout: StructLayout)
    requires cfg.Valid()
  {
    && |layout.fields| < 256
    && (forall i :: 0 <= i < |layout.fields| ==>
          layout.fields[i].name.isStatic && layout.fields[i].name.addr != 0)
    && (forall i, j :: 0 <= i < j < |layout.fields| ==>
          layout.fields[i].name.text != layout.fields[j].name.text)
    && |layout.hashTable| == cfg.TableEntries()
    && (forall i :: 0 <= i < |layout.fields| ==>
          layout.hashTable[MaskColor(cfg, layout.fields[i].name.color)]
            == HashEntry(layout.fields[i].name.addr, i))
    && (forall c :: 0 <= c < |layout.hashTable| && layout.hashTable[c].str != 0 ==>
          && layout.hashTable[c].slot < |layout.fields|
          && layout.fields[layout.hashTable[c].slot].name.addr == layout.hashTable[c].str)
    && layout.positionOffset == g.structDictSize + |layout.fields|
    && layout.valueOffset % 8 == 0
    && layout.positionOffset + |layout.fields| <= layout.valueOffset < 8 * 256
  }
}
