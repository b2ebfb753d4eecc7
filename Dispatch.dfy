/**
 * Choice of the helper function, argument count and VM-sync mode with which
 * the generic bespoke array operations are lowered to a call.
 */
module Dispatch {
  import opened ArrayTypes

  /** The three vanilla array implementations. */
  datatype VanillaKind = VanillaVec | VanillaDict | VanillaKeyset

  /** The containers the member-instruction Elem helpers are specialised for. */
  datatype ElemContainer = ElemDict | ElemKeyset | ElemAnyArray

  /** The StructDict entry points called directly. */
  datatype StructHelper = AllocStructDict | MakeStructDict | RemoveStrInSlot(slot: nat)

  /** A call target. `fn` names the operation wherever the target implements
      one of the vtable operations:
      the layout's own vtable entry, the `BespokeArray` fallback, a vanilla
      implementation (direct or synthesized), or the `ArrayData` method
      called through the generic CallSpec. */
  datatype Target =
    | VtableEntry(fn: Fn)
    | BespokeArrayFn(fn: Fn)
    | BespokeArrayToVanilla
    | VanillaFn(kind: VanillaKind, fn: Fn)
    | SynthesizedFn(kind: VanillaKind, fn: Fn)
    | ArrayDataFn(fn: Fn)
    | ElemHelper(container: ElemContainer, strKey: bool, throwOnMissing: bool)
    | StructDictFn(helper: StructHelper)
  {
    /** The target implements a vtable operation, named by `fn`. */
    predicate Implements() {
      VtableEntry? || BespokeArrayFn? || VanillaFn? || SynthesizedFn? || ArrayDataFn?
    }
  }

  datatype SyncOptions = Sync | NoSync

  /** A helper call: the target, the number of argument slots, the sync mode. */
  datatype Call = Call(target: Target, args: nat, sync: SyncOptions)

  /** The IR instructions lowered here to a call through the dispatch chain. */
  datatype Op =
    | BespokeGet | BespokeGetThrow | BespokeSet | BespokeUnset | BespokeAppend
    | BespokeIterFirstPos | BespokeIterLastPos | BespokeIterEnd
    | BespokeIterGetKey | BespokeIterGetVal
    | BespokeEscalateToVanilla | BespokeElem

  function KindOf(k: VanillaKind): ArrKind {
    match k
    case VanillaVec => VecKind
    case VanillaDict => DictKind
    case VanillaKeyset => KeysetKind
  }

  /** A target may be used for an array of type `t` only if the type proves
      the array has the representation the target assumes. */
  predicate Applicable(target: Target, t: ArrType) {
    match target
    case VtableEntry(fn) => t.layout.BespokeLayout? && fn in t.layout.vtable
    case BespokeArrayFn(_) => t.layout.BespokeLayout?
    case BespokeArrayToVanilla => t.layout.BespokeLayout?
    case VanillaFn(k, _) => t.layout.VanillaLayout? && t.kind == KindOf(k)
    case SynthesizedFn(k, _) => t.layout.VanillaLayout? && t.kind == KindOf(k)
    case ArrayDataFn(_) => true
    case ElemHelper(c, _, throwOnMissing) =>
      && (c == ElemDict ==> t.layout.VanillaLayout? && t.kind == DictKind)
      && (c == ElemKeyset ==> t.layout.VanillaLayout? && t.kind == KeysetKind && !throwOnMissing)
    case StructDictFn(_) => true
  }

  /** The implementations of operation `fn`, most specialised first: the
      candidates the dispatch chain considers, in its order. */
  function Candidates(fn: Fn, synth: bool): seq<Target> {
    [VtableEntry(fn), BespokeArrayFn(fn),
     VanillaTarget(VanillaVec, fn, synth), VanillaTarget(VanillaDict, fn, synth),
     VanillaTarget(VanillaKeyset, fn, synth),
     ArrayDataFn(fn)]
  }

  /** The vanilla implementation of `fn`, the synthesized one when `synth`. */
  function VanillaTarget(k: VanillaKind, fn: Fn, synth: bool): Target {
    if synth then SynthesizedFn(k, fn) else VanillaFn(k, fn)
  }

  /** Reference choice: the first candidate that is applicable. */
  function FirstApplicable(cs: seq<Target>, t: ArrType): (r: Option<Target>)
    ensures r.Some? ==> r.value in cs && Applicable(r.value, t)
    ensures r.None? <==> forall i :: 0 <= i < |cs| ==> !Applicable(cs[i], t)
  {
    if |cs| == 0 then None
    else if Applicable(cs[0], t) then Some(cs[0])
    else FirstApplicable(cs[1..], t)
  }

  /** The dispatch chain (`CALL_TARGET`, and `CALL_TARGET_SYNTH` when
      `synth`): the layout's vtable entry or the BespokeArray fallback for a
      bespoke layout; the vanilla implementation for a vanilla vec, dict or
      keyset; the generic ArrayData method otherwise. */
  function CallTarget(t: ArrType, fn: Fn, synth: bool): (r: Target)
    ensures Applicable(r, t)
    ensures r in Candidates(fn, synth) && r.Implements() && r.fn == fn
  {
    match t.layout
    case BespokeLayout(vtable, _) =>
      if fn in vtable then VtableEntry(fn) else BespokeArrayFn(fn)
    case VanillaLayout =>
      if t.kind == VecKind then VanillaTarget(VanillaVec, fn, synth)
      else if t.kind == DictKind then VanillaTarget(VanillaDict, fn, synth)
      else if t.kind == KeysetKind then VanillaTarget(VanillaKeyset, fn, synth)
      else ArrayDataFn(fn)
    case UnknownLayout => ArrayDataFn(fn)
  }

  /** The first applicable candidate is the one at index k when no earlier
      candidate applies. */
  lemma {:induction false} FirstApplicableAt(cs: seq<Target>, t: ArrType, k: nat)
    requires k < |cs| && Applicable(cs[k], t)
    requires forall j :: 0 <= j < k ==> !Applicable(cs[j], t)
    ensures FirstApplicable(cs, t) == Some(cs[k])
    decreases k
  {
    if k > 0 {
      FirstApplicableAt(cs[1..], t, k - 1);
    }
  }

  /** The chain picks the most specialised implementation the type allows. */
  lemma CallTargetIsFirstApplicable(t: ArrType, fn: Fn, synth: bool)
    ensures FirstApplicable(Candidates(fn, synth), t) == Some(CallTarget(t, fn, synth))
  {
    var cs := Candidates(fn, synth);
    var k :=
      match t.layout
      case BespokeLayout(vtable, _) => if fn in vtable then 0 else 1
      case VanillaLayout =>
        if t.kind == VecKind then 2 else if t.kind == DictKind then 3
        else if t.kind == KeysetKind then 4 else 5
      case UnknownLayout => 5;
    FirstApplicableAt(cs, t, k);
  }

  /** `destructorForArrayLike`. */
  function DestructorForArrayLike(t: ArrType): (r: Target)
    ensures FirstApplicable(Candidates(Release, false), t) == Some(r)
  {
    CallTargetIsFirstApplicable(t, Release, false);
    CallTarget(t, Release, false)
  }

  /** `copyFuncForArrayLike`. */
  function CopyFuncForArrayLike(t: ArrType): (r: Target)
    ensures FirstApplicable(Candidates(Copy, false), t) == Some(r)
  {
    CallTargetIsFirstApplicable(t, Copy, false);
    CallTarget(t, Copy, false)
  }

  /** The operations that act on an int key. */
  predicate IntVariant(fn: Fn) {
    fn == NvGetInt || fn == NvGetIntThrow || fn == SetIntMove || fn == RemoveIntMove || fn == ElemInt
  }

  /** The operations that act on a string key. */
  predicate StrVariant(fn: Fn) {
    fn == NvGetStr || fn == NvGetStrThrow || fn == SetStrMove || fn == RemoveStrMove || fn == ElemStr
  }

  /** Instructions whose helper takes a key. */
  predicate Keyed(op: Op) {
    op == BespokeGet || op == BespokeGetThrow || op == BespokeSet || op == BespokeUnset
  }

  /** The table-driven operation instructions carry out, given whether the key is an int. */
  function OperationOf(op: Op, intKey: bool): Fn
    requires op != BespokeEscalateToVanilla && op != BespokeElem
  {
    match op
    case BespokeGet => if intKey then NvGetInt else NvGetStr
    case BespokeGetThrow => if intKey then NvGetIntThrow else NvGetStrThrow
    case BespokeSet => if intKey then SetIntMove else SetStrMove
    case BespokeUnset => if intKey then RemoveIntMove else RemoveStrMove
    case BespokeAppend => AppendMove
    case BespokeIterFirstPos => IterBegin
    case BespokeIterLastPos => IterLast
    case BespokeIterEnd => IterEnd
    case BespokeIterGetKey => GetPosKey
    case BespokeIterGetVal => GetPosVal
  }

  /** The sync policy: the VM state is synced before the helper runs when the
      helper may throw or modify the array (lookups that throw, writes,
      removals, appends, Elem), and for plain lookups and escalation exactly
      when the array may be a LoggingArray; iteration never syncs. */
  predicate NeedsSync(op: Op, t: ArrType) {
    || op == BespokeGetThrow || op == BespokeSet || op == BespokeUnset
    || op == BespokeAppend || op == BespokeElem
    || ((op == BespokeGet || op == BespokeEscalateToVanilla) && t.maybeLogging)
  }

  /** `cgBespokeElem`'s target. A bespoke layout uses its vtable's Elem entry
      matching the key, or the BespokeArray fallback; other layouts use an
      Elem helper, specialised for a vanilla dict, or for a vanilla keyset
      when a missing key does not throw. The string helper is used exactly
      when the key is known to be a string. */
  function ElemCall(t: ArrType, key: KeyType, throwOnMissing: bool): (c: Call)
    ensures Applicable(c.target, t) && c.sync == Sync
    ensures c.args == (if t.layout.BespokeLayout? then 3 else 2)
    ensures t.layout.BespokeLayout? && (key.IsStr() || key.IsInt()) ==>
      c.target == CallTarget(t, if key.IsStr() then ElemStr else ElemInt, false)
    ensures t.layout.BespokeLayout? && key == IntOrStrKey ==> c.target == BespokeArrayFn(ElemInt)
    ensures !t.layout.BespokeLayout? ==>
      c.target.ElemHelper? && c.target.strKey == key.IsStr() && c.target.throwOnMissing == throwOnMissing
    ensures c.target.ElemHelper? && c.target.container == ElemAnyArray ==>
      !(t.layout.VanillaLayout? && t.kind == DictKind)
      && !(t.layout.VanillaLayout? && t.kind == KeysetKind && !throwOnMissing)
  {
    match t.layout
    case BespokeLayout(vtable, _) =>
      var target :=
        if key.IsStr() && ElemStr in vtable then VtableEntry(ElemStr)
        else if key.IsInt() && ElemInt in vtable then VtableEntry(ElemInt)
        else if key.IsStr() then BespokeArrayFn(ElemStr) else BespokeArrayFn(ElemInt);
      Call(target, 3, Sync)
    case _ =>
      var container :=
        if t.layout.VanillaLayout? && t.kind == DictKind then ElemDict
        else if t.layout.VanillaLayout? && t.kind == KeysetKind && !throwOnMissing then ElemKeyset
        else ElemAnyArray;
      Call(ElemHelper(container, key.IsStr(), throwOnMissing), 2, Sync)
  }

  /** The call an instruction is lowered to. `key` is the type of the key
      operand (ignored by instructions without one); `throwOnMissing` is
      Elem's constant flag. Escalation needs a bespoke source layout. */
  function Lower(op: Op, t: ArrType, key: KeyType, throwOnMissing: bool): (c: Call)
    requires op == BespokeEscalateToVanilla ==> t.layout.BespokeLayout?
    ensures Applicable(c.target, t)
  {
    match op
    case BespokeGet =>
      Call(CallTarget(t, if key.IsInt() then NvGetInt else NvGetStr, false), 2,
           if t.maybeLogging then Sync else NoSync)
    case BespokeGetThrow =>
      Call(CallTarget(t, if key.IsInt() then NvGetIntThrow else NvGetStrThrow, true), 2, Sync)
    case BespokeSet =>
      Call(CallTarget(t, if key.IsInt() then SetIntMove else SetStrMove, false), 3, Sync)
    case BespokeUnset =>
      Call(CallTarget(t, if key.IsInt() then RemoveIntMove else RemoveStrMove, false), 2, Sync)
    case BespokeAppend =>
      Call(CallTarget(t, AppendMove, false), 2, Sync)
    case BespokeIterFirstPos =>
      Call(CallTarget(t, IterBegin, false), 1, NoSync)
    case BespokeIterLastPos =>
      Call(CallTarget(t, IterLast, false), 1, NoSync)
    case BespokeIterEnd =>
      Call(CallTarget(t, IterEnd, false), 1, NoSync)
    case BespokeIterGetKey =>
      Call(CallTarget(t, GetPosKey, false), 2, NoSync)
    case BespokeIterGetVal =>
      Call(CallTarget(t, GetPosVal, false), 2, NoSync)
    case BespokeEscalateToVanilla =>
      Call(if EscalateToVanilla in t.layout.vtable then VtableEntry(EscalateToVanilla)
           else BespokeArrayToVanilla,
           2, if t.maybeLogging then Sync else NoSync)
    case BespokeElem =>
      ElemCall(t, key, throwOnMissing)
  }

  /** The call syncs the VM state exactly when the sync policy asks for it. */
  lemma LowerSyncPolicy(op: Op, t: ArrType, key: KeyType, throwOnMissing: bool)
    requires op == BespokeEscalateToVanilla ==> t.layout.BespokeLayout?
    ensures Lower(op, t, key, throwOnMissing).sync == Sync <==> NeedsSync(op, t)
  {
  }

  /** Every table-driven instruction calls the most specialised applicable
      implementation of its operation; only GetThrow prefers the synthesized
      vanilla functions. */
  lemma LowerFollowsDispatchOrder(op: Op, t: ArrType, key: KeyType, throwOnMissing: bool)
    requires op != BespokeEscalateToVanilla && op != BespokeElem
    ensures Some(Lower(op, t, key, throwOnMissing).target)
         == FirstApplicable(Candidates(OperationOf(op, key.IsInt()), op == BespokeGetThrow), t)
  {
    CallTargetIsFirstApplicable(t, OperationOf(op, key.IsInt()), op == BespokeGetThrow);
  }

  /** Escalation calls the layout's own escalation entry when it has one and
      `BespokeArray::ToVanilla` otherwise. */
  lemma EscalationTarget(t: ArrType, key: KeyType, throwOnMissing: bool)
    requires t.layout.BespokeLayout?
    ensures var c := Lower(BespokeEscalateToVanilla, t, key, throwOnMissing);
      (c.target == VtableEntry(EscalateToVanilla) <==> EscalateToVanilla in t.layout.vtable)
      && (c.target == BespokeArrayToVanilla <==> EscalateToVanilla !in t.layout.vtable)
  {
  }

  /** Keyed instructions call the int variant of their operation exactly
      when the key is known to be an int, and the string variant otherwise. */
  lemma LowerMatchesKeyKind(op: Op, t: ArrType, key: KeyType, throwOnMissing: bool)
    requires Keyed(op)
    ensures var c := Lower(op, t, key, throwOnMissing);
      && c.target.Implements()
      && (IntVariant(c.target.fn) <==> key.IsInt())
      && (StrVariant(c.target.fn) <==> !key.IsInt())
  {
  }

  /** Elem uses its string variant exactly when the key is known to be a
      string, so a key that may be either gets Elem's int variant but the
      keyed instructions' string variant. */
  lemma ElemMatchesKeyKind(t: ArrType, key: KeyType, throwOnMissing: bool)
    ensures var c := Lower(BespokeElem, t, key, throwOnMissing);
      (if c.target.ElemHelper? then !c.target.strKey
       else c.target.Implements() && c.target.fn == ElemInt)
      <==> !key.IsStr()
  {
  }
}
