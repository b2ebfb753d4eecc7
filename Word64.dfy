/**
 * The 64-bit words of the position stores: byte lanes, a word's
 * little-endian byte image, and the effect of OR-ing a shifted byte into a
 * word.
 */
module Word64 {
  import opened Machine

  /** The value of byte lane `k` (bits 8k..8k+7) of a 64-bit word. */
  function Lane(w: bv64, k: bv64): (r: bv64)
    requires k < 8
    ensures r < 256
  {
    (w >> (8 * k)) & 0xFF
  }

  /** OR-ing `b << 8j` into a word whose lane j is clear sets lane j to b ... */
  lemma InsertIntoClearLane(w: bv64, b: bv8, j: bv64)
    requires j < 8 && Lane(w, j) == 0
    ensures Lane(w | ((b as bv64) << (8 * j)), j) == b as bv64
  {
  }

  /** ... and leaves every other lane as it was. */
  lemma InsertLeavesOtherLanes(w: bv64, b: bv8, j: bv64, k: bv64)
    requires j < 8 && k < 8 && j != k
    ensures Lane(w | ((b as bv64) << (8 * j)), k) == Lane(w, k)
  {
  }

  /** A byte as the `uint8_t` it is in the code. */
  function ToBv8(b: Byte): (r: bv8)
    ensures r as int == b
  {
    if b == 0 then 0 else ToBv8(b - 1) + 1
  }

  /** Lane number `k` as a shift count operand (one case per lane). */
  function LaneIndex(k: nat): (r: bv64)
    requires k < 8
    ensures r < 8
  {
    if k == 0 then 0 else if k == 1 then 1 else if k == 2 then 2 else if k == 3 then 3
    else if k == 4 then 4 else if k == 5 then 5 else if k == 6 then 6 else 7
  }

  lemma LaneIndexInjective(a: nat, b: nat)
    requires a < 8 && b < 8 && a != b
    ensures LaneIndex(a) != LaneIndex(b)
  {
  }

  /** Lane `k` of a word as a byte value. */
  function LaneByte(w: bv64, k: nat): Byte
    requires k < 8
  {
    (Lane(w, LaneIndex(k)) as bv8) as int
  }

  /** The eight bytes a 64-bit store (`store`) writes: lane k at offset k,
      least significant first. */
  function Le64(w: bv64): (bs: seq<Byte>)
    ensures |bs| == 8
    ensures forall k :: 0 <= k < 8 ==> bs[k] == LaneByte(w, k)
  {
    seq(8, k requires 0 <= k < 8 => LaneByte(w, k))
  }

  /** `w | (b << 8j)`: the word with byte `b` OR-ed into lane j. */
  function OrIntoLane(w: bv64, b: bv8, j: nat): bv64
    requires j < 8
  {
    w | ((b as bv64) << (8 * LaneIndex(j)))
  }

  /** OR-ing a byte into a clear lane sets that lane to the byte and keeps
      every other lane. */
  lemma OrIntoClearLane(w: bv64, b: bv8, j: nat)
    requires j < 8 && LaneByte(w, j) == 0
    ensures LaneByte(OrIntoLane(w, b, j), j) == b as int
    ensures forall t :: 0 <= t < 8 && t != j ==> LaneByte(OrIntoLane(w, b, j), t) == LaneByte(w, t)
  {
    OrLaneSets(w, b, j);
    forall t | 0 <= t < 8 && t != j
      ensures LaneByte(OrIntoLane(w, b, j), t) == LaneByte(w, t)
    {
      OrLaneKeeps(w, b, j, t);
    }
  }

  lemma OrLaneSets(w: bv64, b: bv8, j: nat)
    requires j < 8 && LaneByte(w, j) == 0
    ensures LaneByte(OrIntoLane(w, b, j), j) == b as int
  {
    var jj := LaneIndex(j);
    LaneClear(w, jj);
    InsertIntoClearLane(w, b, jj);
  }

  lemma OrLaneKeeps(w: bv64, b: bv8, j: nat, t: nat)
    requires j < 8 && t < 8 && t != j
    ensures LaneByte(OrIntoLane(w, b, j), t) == LaneByte(w, t)
  {
    LaneIndexInjective(j, t);
    InsertLeavesOtherLanes(w, b, LaneIndex(j), LaneIndex(t));
  }

  /** A lane whose byte value is 0 is clear. */
  lemma LaneClear(w: bv64, k: bv64)
    requires k < 8 && (Lane(w, k) as bv8) as int == 0
    ensures Lane(w, k) == 0
  {
  }
}
