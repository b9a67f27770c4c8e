/**
 * Rate tables (netlink/filter_linux.go): 256 transmit times, for packet sizes rounded up to powers of two and, on ATM
 * links, to whole cells. `int` and `uint` have 64 bits; the transmit time is an abstract function of rate and size.
 */
module RateTable {
  import opened Bytes

  const LINKLAYER_ATM: int := 2
  const ATM_CELL_PAYLOAD: nat := 48
  const ATM_CELL_SIZE: nat := 53
  const DEFAULT_MTU: uint32 := 2047
  const TWO_32: nat := 0x1_0000_0000

  type Xmittime = (uint32, uint32) -> uint32

  function Pow2(n: nat): (r: nat)
    ensures r >= 1
  {
    if n == 0 then 1 else 2 * Pow2(n - 1)
  }

  function Cells(size: uint64): nat {
    size / ATM_CELL_PAYLOAD + if size % ATM_CELL_PAYLOAD > 0 then 1 else 0
  }

  /** `AlignToAtm`. */
  function AlignToAtm(size: uint64): uint64 {
    Cells(size) * ATM_CELL_SIZE % TWO_64
  }

  /** `AdjustSize`. */
  function AdjustSize(size: uint64, mpu: uint64, linklayer: int): uint64 {
    var sz := if size < mpu then mpu else size;
    if linklayer == LINKLAYER_ATM then AlignToAtm(sz) else sz
  }

  /** The least shift that brings the MTU below 256. */
  function LeastShift(mtu: uint32): nat
    decreases mtu
  {
    if mtu <= 255 then 0 else 1 + LeastShift(mtu / 2)
  }

  function Shift(mtu: uint32, cellLog: int): nat {
    if cellLog >= 0 then cellLog else LeastShift(if mtu == 0 then DEFAULT_MTU else mtu)
  }

  /** The size of entry `i`, before it is cut to 32 bits; a shift count is cut to 32 bits. */
  function EntrySize(i: nat, shift: nat, mpu: uint16, linklayer: int): uint64 {
    AdjustSize((i + 1) * Pow2(shift % TWO_32) % TWO_64, mpu, linklayer)
  }

  /** Entry `i` of the table. */
  function Entry(i: nat, shift: nat, mpu: uint16, linklayer: int, rate: uint32, xmit: Xmittime): uint32 {
    xmit(rate, EntrySize(i, shift, mpu, linklayer) % TWO_32)
  }

  class RateSpec {
    var cellLog: byte
    var linklayer: byte
    var overhead: uint16
    var cellAlign: int
    var mpu: uint16
    var rate: uint32

    constructor (mpu: uint16, rate: uint32)
      ensures this.mpu == mpu && this.rate == rate
    {
      cellLog, linklayer, overhead, cellAlign := 0, 0, 0, 0;
      this.mpu, this.rate := mpu, rate;
    }
  }

  /** The search for a shift that the caller leaves open. */
  method FindShift(mtu: uint32) returns (cellLog: nat)
    ensures cellLog == LeastShift(mtu)
  {
    hide Pow2, LeastShift;
    cellLog := 0;
    DivPow2(mtu, 0);
    while mtu / Pow2(cellLog) > 255
      invariant mtu / Pow2(cellLog) <= mtu
      invariant LeastShift(mtu) == cellLog + LeastShift(mtu / Pow2(cellLog))
      decreases mtu / Pow2(cellLog)
    {
      DivPow2(mtu, cellLog);
      LeastShiftStep(mtu / Pow2(cellLog));
      cellLog := cellLog + 1;
    }
    LeastShiftStep(mtu / Pow2(cellLog));
  }

  /**
   * `CalcRtable`. The shift is never negative, whatever the callers check; a table of fewer than 256 entries is an index
   * failure, and entries past the 256th stay as they are.
   */
  method CalcRtable(rate: RateSpec, rtab: array<uint32>, cellLog0: int, mtu0: uint32, linklayer: int, xmit: Xmittime)
    returns (ok: bool, cellLog: nat)
    modifies rate`cellAlign, rate`cellLog, rate`linklayer, rtab
    ensures ok <==> rtab.Length >= 256
    ensures cellLog == Shift(mtu0, cellLog0)
    ensures forall i :: 0 <= i < Min(256, rtab.Length) ==>
              rtab[i] == Entry(i, cellLog, rate.mpu, linklayer, rate.rate, xmit)
    ensures forall i :: 256 <= i < rtab.Length ==> rtab[i] == old(rtab[i])
    ensures ok ==> rate.cellAlign == -1 && rate.cellLog == cellLog % 0x100 && rate.linklayer == linklayer % 0x10
  {
    hide EntrySize;
    var mtu := if mtu0 == 0 then DEFAULT_MTU else mtu0;
    if cellLog0 < 0 {
      cellLog := FindShift(mtu);
    } else {
      cellLog := cellLog0;
    }
    for i := 0 to 256
      invariant i <= rtab.Length
      invariant forall k :: 0 <= k < i ==>
                  rtab[k] == Entry(k, cellLog, rate.mpu, linklayer, rate.rate, xmit)
      invariant forall k :: i <= k < rtab.Length ==> rtab[k] == old(rtab[k])
    {
      if i >= rtab.Length { return false, cellLog; }
      var sz := EntrySize(i, cellLog, rate.mpu, linklayer);
      rtab[i] := xmit(rate.rate, sz % TWO_32);
    }
    rate.cellAlign := -1;
    rate.cellLog := cellLog % 0x100;
    rate.linklayer := linklayer % 0x10;
    ok := true;
  }

  lemma LeastShiftStep(n: uint32)
    ensures LeastShift(n) == if n <= 255 then 0 else 1 + LeastShift(n / 2)
  {
  }

  /** Shifting once more halves what is left. */
  lemma DivPow2(n: nat, c: nat)
    ensures n / Pow2(0) == n
    ensures n / Pow2(c + 1) == n / Pow2(c) / 2
  {
    var p := Pow2(c);
    DivTwice(n, p);
  }

  lemma DivTwice(n: nat, p: nat)
    requires p > 0
    ensures n / (2 * p) == n / p / 2
  {
    var q, r := n / p, n % p;
    assert n == q * p + r;
    var h, b := q / 2, q % 2;
    assert n == h * (2 * p) + (b * p + r) by { assert q == 2 * h + b; }
    assert 0 <= b * p + r < 2 * p;
    DivUnique(n, 2 * p, h, b * p + r);
  }

  lemma DivUnique(n: nat, d: nat, q: nat, r: nat)
    requires d > 0 && n == q * d + r && r < d
    ensures n / d == q
  {
    var q', r' := n / d, n % d;
    assert n == q' * d + r';
    assert q' < q ==> q * d >= (q' + 1) * d by { if q' < q { MulMonotone(q' + 1, q, d, d); } }
    assert q' > q ==> q' * d >= (q + 1) * d by { if q' > q { MulMonotone(q + 1, q', d, d); } }
  }

  /* ---------- the shift ---------- */

  /** The search finds the least shift: the shifted MTU is below 256, and above it for every smaller shift. */
  lemma {:induction false} LeastShiftIsLeast(mtu: uint32, c: nat)
    ensures mtu / Pow2(c) <= 255 <==> LeastShift(mtu) <= c
    decreases c
  {
    if c == 0 {
    } else if mtu <= 255 {
      DivSmall(mtu, Pow2(c));
    } else {
      LeastShiftIsLeast(mtu / 2, c - 1);
      var p: nat := Pow2(c - 1);
      HalfFirst(mtu, p);
    }
  }

  lemma DivSmall(n: nat, d: nat)
    requires d > 0
    ensures n / d <= n
  {
    var q: nat := n / d;
    assert n == q * d + n % d;
    MulMonotone(q, q, 1, d);
  }

  lemma MulMonotone(a: nat, b: nat, p: nat, q: nat)
    requires a <= b && p <= q
    ensures a * p <= b * q
  {
    assert b * q == a * p + (b - a) * q + a * (q - p);
    assert (b - a) * q >= 0 && a * (q - p) >= 0;
  }

  lemma HalfFirst(n: nat, p: nat)
    requires p > 0
    ensures n / (2 * p) == n / 2 / p
  {
    var q, r := n / 2 / p, n / 2 % p;
    assert n / 2 == q * p + r;
    assert n == q * (2 * p) + (2 * r + n % 2);
    DivUnique(n, 2 * p, q, 2 * r + n % 2);
  }

  /** An MTU takes a shift of at most 24, and stays below 256 shifted cells. */
  lemma {:induction false} ShiftBounds(mtu: uint32, bits: nat)
    requires mtu < 0x100 * Pow2(bits)
    ensures LeastShift(mtu) <= bits && mtu < 0x100 * Pow2(LeastShift(mtu))
    decreases bits
  {
    if mtu > 255 {
      ShiftBounds(mtu / 2, bits - 1);
    }
  }

  lemma PowerTable()
    ensures Pow2(8) == 0x100 && Pow2(16) == 0x1_0000 && Pow2(22) == 0x40_0000 && Pow2(23) == 0x80_0000 && Pow2(24) == 0x100_0000
    ensures Pow2(55) == 0x80_0000_0000_0000 && Pow2(56) == 0x100_0000_0000_0000
  {
    assert Pow2(4) == 16;
    assert Pow2(8) == 0x100;
    assert Pow2(12) == 0x1000;
    assert Pow2(16) == 0x1_0000;
    assert Pow2(20) == 0x10_0000;
    assert Pow2(22) == 0x40_0000;
    assert Pow2(28) == 0x1000_0000;
    assert Pow2(32) == 0x1_0000_0000;
    assert Pow2(36) == 0x10_0000_0000;
    assert Pow2(40) == 0x100_0000_0000;
    assert Pow2(44) == 0x1000_0000_0000;
    assert Pow2(48) == 0x1_0000_0000_0000;
    assert Pow2(52) == 0x10_0000_0000_0000;
  }

  lemma {:induction false} Pow2Monotone(a: nat, b: nat)
    requires a <= b
    ensures Pow2(a) <= Pow2(b)
    decreases b
  {
    if a < b {
      Pow2Monotone(a, b - 1);
    }
  }

  /** A search starting from a negative shift ends between 0 and 24, and at 24 exactly for an MTU of 2^31 or more. */
  lemma SearchedShift(mtu: uint32, cellLog: int)
    requires cellLog < 0
    ensures var c := Shift(mtu, cellLog);
            && c <= 24 && (c == 24 <==> mtu >= 0x8000_0000)
            && (mtu != 0 ==> mtu < 0x100 * Pow2(c) && mtu / Pow2(c) <= 255)
            && (forall d :: 0 <= d < c && mtu != 0 ==> mtu / Pow2(d) > 255)
  {
    hide LeastShift;
    PowerTable();
    ShiftBounds(if mtu == 0 then DEFAULT_MTU else mtu, 24);
    var c := Shift(mtu, cellLog);
    if mtu < 0x8000_0000 { ShiftBounds(if mtu == 0 then DEFAULT_MTU else mtu, 23); }
    if c <= 23 { Pow2Monotone(c, 23); }
    LeastShiftIsLeast(mtu, c);
    forall d | 0 <= d < c && mtu != 0 ensures mtu / Pow2(d) > 255 {
      LeastShiftIsLeast(mtu, d);
    }
  }

  /* ---------- the sizes ---------- */

  lemma CellsHold(size: uint64, n: nat)
    ensures Cells(size) == n <==> ATM_CELL_PAYLOAD * n - ATM_CELL_PAYLOAD < size <= ATM_CELL_PAYLOAD * n
  {
  }

  /** ATM rounding: the least number of cells whose payload holds the size, 53 bytes each, while that fits 64 bits. */
  lemma AtmRounding(size: uint64, n: nat)
    requires ATM_CELL_SIZE * Cells(size) < TWO_64
    ensures AlignToAtm(size) == ATM_CELL_SIZE * n <==> ATM_CELL_PAYLOAD * n - ATM_CELL_PAYLOAD < size <= ATM_CELL_PAYLOAD * n
  {
    hide Cells;
    CellsHold(size, n);
    CellsHold(size, Cells(size));
    assert AlignToAtm(size) == ATM_CELL_SIZE * Cells(size);
  }

  lemma AdjustMonotone(a: uint64, b: uint64, mpu: uint16, linklayer: int)
    requires a <= b <= 0x8000_0000_0000_0000
    ensures AdjustSize(a, mpu, linklayer) <= AdjustSize(b, mpu, linklayer)
    ensures Max(a, mpu) <= AdjustSize(a, mpu, linklayer)
  {
    hide Cells, AlignToAtm;
    var a', b' := Max(a, mpu), Max(b, mpu);
    CellsHold(a', Cells(a'));
    CellsHold(b', Cells(b'));
    assert Cells(a') <= Cells(b') < 0x400_0000_0000_0000;
    AtmRounding(a', Cells(a'));
    AtmRounding(b', Cells(b'));
  }

  /** The largest entry decides whether all sizes fit. */
  lemma LastSize(shift: nat, mpu: uint16, linklayer: int)
    requires shift <= 24
    ensures EntrySize(255, shift, mpu, linklayer) < TWO_32 <==> shift <= 23
  {
    hide AlignToAtm, Pow2, EntrySize;
    PowerTable();
    var p: nat := Pow2(shift);
    EntryBase(255, shift, mpu, linklayer);
    if shift <= 23 {
      Pow2Monotone(shift, 23);
      AdjustMonotone(256 * p, 0x8000_0000, mpu, linklayer);
      CellsHold(0x8000_0000, 44739243);
      AtmRounding(0x8000_0000, 44739243);
    } else {
      AdjustMonotone(256 * p, 256 * p, mpu, linklayer);
    }
  }

  lemma EntryBase(i: nat, shift: nat, mpu: uint16, linklayer: int)
    requires i < 256 && shift <= 55
    ensures (i + 1) * Pow2(shift) <= 0x8000_0000_0000_0000
    ensures shift <= 24 ==> (i + 1) * Pow2(shift) <= 0x1_0000_0000
    ensures EntrySize(i, shift, mpu, linklayer) == AdjustSize((i + 1) * Pow2(shift), mpu, linklayer)
  {
    hide AdjustSize, Pow2;
    PowerTable();
    var p: nat := Pow2(shift);
    Pow2Monotone(shift, 55);
    MulMonotone(i + 1, 256, p, 0x80_0000_0000_0000);
    if shift <= 24 {
      Pow2Monotone(shift, 24);
      MulMonotone(i + 1, 256, p, 0x100_0000);
    }
    var size: nat := (i + 1) * p;
    assert size % TWO_64 == size && shift % TWO_32 == shift;
  }

  /** Up to a shift of 55, entry sizes never shrink, and cover the packet and the minimum packet unit. */
  lemma SizesOrdered(i: nat, k: nat, shift: nat, mpu: uint16, linklayer: int)
    requires i <= k < 256 && shift <= 55
    ensures EntrySize(i, shift, mpu, linklayer) <= EntrySize(k, shift, mpu, linklayer)
    ensures EntrySize(i, shift, mpu, linklayer) >= Max(mpu, (i + 1) * Pow2(shift))
  {
    hide AdjustSize, EntrySize, Pow2;
    EntryBase(i, shift, mpu, linklayer);
    EntryBase(k, shift, mpu, linklayer);
    var p: nat := Pow2(shift);
    MulMonotone(i + 1, k + 1, p, p);
    AdjustMonotone((i + 1) * p, (k + 1) * p, mpu, linklayer);
  }

  /**
   * The exact size of an entry, up to a shift of 55: the packet or the minimum packet unit, whichever is larger, and on
   * ATM links, with link layer 2, the least number of cells of 48 bytes that holds it, at 53 bytes each.
   */
  lemma SizeExactly(i: nat, shift: nat, mpu: uint16, linklayer: int)
    requires i < 256 && shift <= 55
    ensures var s := Max(mpu, (i + 1) * Pow2(shift));
            var size: nat := EntrySize(i, shift, mpu, linklayer);
            if linklayer != 2 then size == s
            else size % 53 == 0 && 48 * (size / 53) - 48 < s <= 48 * (size / 53)
  {
    hide EntrySize, Pow2, AdjustSize;
    EntryBase(i, shift, mpu, linklayer);
    AdjustedExactly((i + 1) * Pow2(shift), mpu, linklayer);
  }

  lemma AdjustedExactly(packet: nat, mpu: uint16, linklayer: int)
    requires packet <= 0x8000_0000_0000_0000
    ensures var s := Max(mpu, packet);
            var size: nat := AdjustSize(packet, mpu, linklayer);
            if linklayer != 2 then size == s
            else size % 53 == 0 && 48 * (size / 53) - 48 < s <= 48 * (size / 53)
  {
    hide Cells, AlignToAtm;
    var s := Max(mpu, packet);
    CellsHold(s, Cells(s));
    assert Cells(s) < 0x400_0000_0000_0000;
    AtmRounding(s, Cells(s));
  }

  /** An MTU that is left open is one of 2047, which takes a shift of 3. */
  lemma OpenMtu(cellLog: int)
    ensures cellLog < 0 ==> Shift(0, cellLog) == 3
    ensures forall mtu: uint32 :: cellLog >= 0 ==> Shift(mtu, cellLog) == cellLog
  {
    assert LeastShift(2047) == 1 + LeastShift(1023) && LeastShift(1023) == 1 + LeastShift(511);
    assert LeastShift(511) == 1 + LeastShift(255);
  }

  /** For any shift of a caller: the sizes cover the packets of all entries exactly up to 55. */
  lemma SizesCoverExactly(shift: nat, mpu: uint16, linklayer: int)
    ensures (forall i :: 0 <= i < 256 ==> EntrySize(i, shift, mpu, linklayer) >= (i + 1) * Pow2(shift)) <==> shift <= 55
  {
    hide EntrySize, Pow2;
    PowerTable();
    if shift <= 55 {
      forall i | 0 <= i < 256 ensures EntrySize(i, shift, mpu, linklayer) >= (i + 1) * Pow2(shift) {
        SizesOrdered(i, i, shift, mpu, linklayer);
      }
    } else {
      Pow2Monotone(56, shift);
      assert EntrySize(255, shift, mpu, linklayer) < (255 + 1) * Pow2(shift);
    }
  }

  /** With a searched shift all 256 sizes fit 32 bits exactly when the MTU is below 2^31. */
  lemma SizesFit(mtu: uint32, cellLog: int, mpu: uint16, linklayer: int)
    requires cellLog < 0
    ensures (forall i :: 0 <= i < 256 ==> EntrySize(i, Shift(mtu, cellLog), mpu, linklayer) < TWO_32) <==> mtu < 0x8000_0000
  {
    hide EntrySize, Shift;
    var c := Shift(mtu, cellLog);
    SearchedShift(mtu, cellLog);
    LastSize(c, mpu, linklayer);
    forall i | 0 <= i < 256 ensures EntrySize(i, c, mpu, linklayer) <= EntrySize(255, c, mpu, linklayer) {
      SizesOrdered(i, 255, c, mpu, linklayer);
    }
  }

  ghost predicate MonotoneInSize(xmit: Xmittime) {
    forall rate, a, b :: a <= b ==> xmit(rate, a) <= xmit(rate, b)
  }

  lemma EntryCovers(size: uint32, i: nat, c: nat, mpu: uint16, linklayer: int, rate: uint32, xmit: Xmittime)
    requires MonotoneInSize(xmit) && i < 256 && c <= 24 && size <= (i + 1) * Pow2(c)
    requires EntrySize(i, c, mpu, linklayer) < TWO_32
    ensures xmit(rate, size) <= Entry(i, c, mpu, linklayer, rate, xmit)
  {
    hide EntrySize, Pow2;
    SizesOrdered(i, i, c, mpu, linklayer);
  }

  /** Below an MTU of 2^31 the table is nondecreasing, and bounds the time of every packet that uses the entry. */
  lemma TableOrdered(mtu: uint32, cellLog: int, mpu: uint16, linklayer: int, rate: uint32, xmit: Xmittime, i: nat, k: nat)
    requires cellLog < 0 && mtu < 0x8000_0000 && MonotoneInSize(xmit) && i <= k < 256
    ensures var c := Shift(mtu, cellLog);
            && Entry(i, c, mpu, linklayer, rate, xmit) <= Entry(k, c, mpu, linklayer, rate, xmit)
            && (forall size: uint32 :: size <= (i + 1) * Pow2(c) ==> xmit(rate, size) <= Entry(i, c, mpu, linklayer, rate, xmit))
  {
    hide EntrySize, Shift, Pow2;
    var c := Shift(mtu, cellLog);
    SearchedShift(mtu, cellLog);
    SizesFit(mtu, cellLog, mpu, linklayer);
    SizesOrdered(i, k, c, mpu, linklayer);
    assert Entry(i, c, mpu, linklayer, rate, xmit) <= Entry(k, c, mpu, linklayer, rate, xmit);
    hide Entry, MonotoneInSize;
    forall size: uint32 | size <= (i + 1) * Pow2(c)
      ensures xmit(rate, size) <= Entry(i, c, mpu, linklayer, rate, xmit)
    {
      EntryCovers(size, i, c, mpu, linklayer, rate, xmit);
    }
  }

  /* ---------- from 2^31 on ---------- */

  /** The two sizes, cut to 32 bits, between which the table steps back: the later entry has the lower one. */
  function LowSize(linklayer: int): uint32 {
    if linklayer == LINKLAYER_ATM then 2796238 else 0
  }

  function HighSize(linklayer: int): uint32 {
    if linklayer == LINKLAYER_ATM then 4279238656 else 0xFF00_0000
  }

  /** The first entry whose size does not fit 32 bits. */
  function Step(linklayer: int): nat {
    if linklayer == LINKLAYER_ATM then 231 else 255
  }

  /** With a shift of 24 the sizes reach the high one, and then start again at the low one. */
  lemma SizesStepBack(mpu: uint16, linklayer: int)
    ensures var s := Step(linklayer);
            && EntrySize(s - 1, 24, mpu, linklayer) == HighSize(linklayer)
            && EntrySize(s, 24, mpu, linklayer) == TWO_32 + LowSize(linklayer)
            && EntrySize(255, 24, mpu, linklayer) == TWO_32 + if linklayer == LINKLAYER_ATM then 447392462 else 0
  {
    hide AlignToAtm, EntrySize, Pow2;
    PowerTable();
    EntryBase(255, 24, mpu, linklayer);
    if linklayer == LINKLAYER_ATM {
      EntryBase(230, 24, mpu, linklayer);
      EntryBase(231, 24, mpu, linklayer);
      AtmSizes();
    } else {
      EntryBase(254, 24, mpu, linklayer);
    }
  }

  lemma AtmSizes()
    ensures AlignToAtm(231 * 0x100_0000) == 4279238656
    ensures AlignToAtm(232 * 0x100_0000) == TWO_32 + 2796238
    ensures AlignToAtm(256 * 0x100_0000) == TWO_32 + 447392462
  {
    hide AlignToAtm;
    CellsHold(231 * 0x100_0000, 80740352);
    AtmRounding(231 * 0x100_0000, 80740352);
    CellsHold(232 * 0x100_0000, 81089878);
    AtmRounding(232 * 0x100_0000, 81089878);
    CellsHold(256 * 0x100_0000, 89478486);
    AtmRounding(256 * 0x100_0000, 89478486);
  }

  lemma CutOnce(n: nat)
    requires n < 2 * TWO_32
    ensures n % TWO_32 == if n < TWO_32 then n else n - TWO_32
  {
  }

  /** From 2^31 on the last entry is the time of a packet that is far too small; without cells, of an empty one. */
  lemma LastEntryWraps(mtu: uint32, cellLog: int, mpu: uint16, linklayer: int, rate: uint32, xmit: Xmittime)
    requires cellLog < 0 && mtu >= 0x8000_0000
    ensures Entry(255, Shift(mtu, cellLog), mpu, linklayer, rate, xmit) ==
            xmit(rate, if linklayer == LINKLAYER_ATM then 447392462 else 0)
  {
    hide Shift, EntrySize;
    SearchedShift(mtu, cellLog);
    SizesStepBack(mpu, linklayer);
    CutOnce(EntrySize(255, 24, mpu, linklayer));
  }

  ghost predicate Ordered(shift: nat, mpu: uint16, linklayer: int, rate: uint32, xmit: Xmittime) {
    forall i, k :: 0 <= i <= k < 256 ==>
      Entry(i, shift, mpu, linklayer, rate, xmit) <= Entry(k, shift, mpu, linklayer, rate, xmit)
  }

  /** Where the size of an entry of the largest tables lies once it is cut. */
  lemma CutSizes(i: nat, mpu: uint16, linklayer: int)
    requires i < 256
    ensures var size := EntrySize(i, 24, mpu, linklayer) % TWO_32;
            && size <= HighSize(linklayer)
            && (i < Step(linklayer) ==> size == EntrySize(i, 24, mpu, linklayer))
            && (i >= Step(linklayer) ==> LowSize(linklayer) <= size)
  {
    hide EntrySize;
    SizesStepBack(mpu, linklayer);
    var s := Step(linklayer);
    SizesOrdered(i, 255, 24, mpu, linklayer);
    CutOnce(EntrySize(i, 24, mpu, linklayer));
    hide Pow2;
    if i < s {
      SizesOrdered(i, s - 1, 24, mpu, linklayer);
    } else {
      SizesOrdered(s, i, 24, mpu, linklayer);
    }
  }

  /** From 2^31 on the table is nondecreasing only if the transmit time does not tell those two sizes apart. */
  lemma LargestTables(mpu: uint16, linklayer: int, rate: uint32, xmit: Xmittime)
    requires MonotoneInSize(xmit)
    ensures Ordered(24, mpu, linklayer, rate, xmit) <==> xmit(rate, LowSize(linklayer)) == xmit(rate, HighSize(linklayer))
  {
    hide EntrySize, HighSize, LowSize;
    var s := Step(linklayer);
    var low, high := xmit(rate, LowSize(linklayer)), xmit(rate, HighSize(linklayer));
    SizesStepBack(mpu, linklayer);
    CutSizes(s, mpu, linklayer);
    CutSizes(s - 1, mpu, linklayer);
    assert Entry(s - 1, 24, mpu, linklayer, rate, xmit) == high;
    assert Entry(s, 24, mpu, linklayer, rate, xmit) == low;
    LowBelowHigh(linklayer);
    if low == high {
      forall i, k | 0 <= i <= k < 256
        ensures Entry(i, 24, mpu, linklayer, rate, xmit) <= Entry(k, 24, mpu, linklayer, rate, xmit)
      {
        CutSizes(i, mpu, linklayer);
        CutSizes(k, mpu, linklayer);
        SizesOrdered(i, k, 24, mpu, linklayer);
      }
    }
  }

  lemma LowBelowHigh(linklayer: int)
    ensures LowSize(linklayer) <= HighSize(linklayer)
  {
  }

  /**
   * For any transmit time that does not fall with the size, on every link layer: the table is nondecreasing exactly when
   * the MTU is below 2^31, or the transmit time is the same for all sizes between the two at which the table steps back.
   */
  lemma TableOrderedExactly(mtu: uint32, cellLog: int, mpu: uint16, linklayer: int, rate: uint32, xmit: Xmittime)
    requires cellLog < 0 && MonotoneInSize(xmit)
    ensures Ordered(Shift(mtu, cellLog), mpu, linklayer, rate, xmit) <==>
            mtu < 0x8000_0000 || xmit(rate, LowSize(linklayer)) == xmit(rate, HighSize(linklayer))
  {
    hide Entry, Shift, LowSize, HighSize, MonotoneInSize;
    SearchedShift(mtu, cellLog);
    if mtu < 0x8000_0000 {
      forall i, k | 0 <= i <= k < 256
        ensures Entry(i, Shift(mtu, cellLog), mpu, linklayer, rate, xmit) <=
                Entry(k, Shift(mtu, cellLog), mpu, linklayer, rate, xmit)
      {
        TableOrdered(mtu, cellLog, mpu, linklayer, rate, xmit, i, k);
      }
    } else {
      LargestTables(mpu, linklayer, rate, xmit);
    }
  }
}
