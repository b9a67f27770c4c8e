/** Bit strings and integers (bertlv/primitive) against reference encodings (ITU-T X.690 sections 8.3 and 8.6). */
module PrimitiveLaws {
  import opened Bytes
  import opened BerLength
  import opened Messages
  import Transport

  /* ---------- binary numbers ---------- */

  /** The number that bits spell, most significant first. */
  function Number(bits: seq<bool>): nat {
    if bits == [] then 0
    else 2 * Number(bits[..|bits| - 1]) + if bits[|bits| - 1] then 1 else 0
  }

  lemma {:induction false} NumberConcat(a: seq<bool>, b: seq<bool>)
    ensures Number(a + b) == Number(a) * Weight(|b|) + Number(b)
    decreases |b|
  {
    if b == [] {
      assert a + b == a;
    } else {
      var n := |b| - 1;
      assert (a + b)[..|a + b| - 1] == a + b[..n];
      NumberConcat(a, b[..n]);
      Twice(Number(a), Weight(n), Number(b[..n]));
    }
  }

  lemma Twice(x: nat, w: nat, y: nat)
    ensures 2 * (x * w + y) == x * (2 * w) + 2 * y
  {
  }

  lemma {:induction false} NumberBelow(bits: seq<bool>)
    ensures Number(bits) < Weight(|bits|)
  {
    if bits != [] {
      NumberBelow(bits[..|bits| - 1]);
    }
  }

  /** The bits of a number split it by quotient and remainder. */
  lemma NumberSplits(a: seq<bool>, b: seq<bool>)
    ensures Number(a + b) / Weight(|b|) == Number(a) && Number(a + b) % Weight(|b|) == Number(b)
  {
    NumberConcat(a, b);
    NumberBelow(b);
    Transport.Quotient(Number(a + b), Weight(|b|), Number(a), Number(b));
  }

  lemma LastBit(bits: seq<bool>)
    requires bits != []
    ensures Number(bits) % 2 == 1 <==> bits[|bits| - 1]
  {
  }

  lemma NumberBit(bits: seq<bool>, k: nat)
    requires k < |bits|
    ensures IsSet(Number(bits), |bits| - 1 - k) <==> bits[k]
  {
    var a, b := bits[..k + 1], bits[k + 1..];
    assert bits == a + b;
    NumberSplits(a, b);
    hide Weight;
    assert |b| == |bits| - 1 - k;
    LastBit(a);
  }

  lemma {:induction false} NumberZero(bits: seq<bool>)
    requires Number(bits) == 0
    ensures forall k :: 0 <= k < |bits| ==> !bits[k]
  {
    if bits != [] {
      NumberZero(bits[..|bits| - 1]);
    }
  }

  /** The lowest `n` bits of a number. */
  function BitsOf(v: nat, n: nat): (r: seq<bool>)
    ensures |r| == n
  {
    if n == 0 then [] else BitsOf(v / 2, n - 1) + [v % 2 == 1]
  }

  lemma {:induction false} NumberOfBits(v: nat, n: nat)
    requires v < Weight(n)
    ensures Number(BitsOf(v, n)) == v
    decreases n
  {
    if n > 0 {
      NumberOfBits(v / 2, n - 1);
      assert BitsOf(v, n)[..n - 1] == BitsOf(v / 2, n - 1);
    }
  }

  /* ---------- bit strings ---------- */

  function Zeros(n: nat): seq<bool> {
    seq(n, _ => false)
  }

  lemma {:induction false} ZerosNumber(n: nat)
    ensures Number(Zeros(n)) == 0
  {
    if n > 0 {
      assert Zeros(n)[..n - 1] == Zeros(n - 1);
      ZerosNumber(n - 1);
    }
  }

  lemma EightBits()
    ensures Weight(8) == 256
  {
    assert Weight(4) == 16;
  }

  /** An octet of up to eight bits; missing bits are zero. */
  function Octet(bits: seq<bool>): (r: byte)
    requires |bits| <= 8
  {
    var all := bits + Zeros(8 - |bits|);
    assert Number(all) < 0x100 by {
      NumberBelow(all);
      EightBits();
    }
    Number(all)
  }

  function Octets(bits: seq<bool>): (r: seq<byte>)
    ensures |r| == (|bits| + 7) / 8
  {
    if bits == [] then [] else [Octet(bits[..Min(8, |bits|)])] + Octets(bits[Min(8, |bits|)..])
  }

  /** `MarshalBitString`: the number of unused bits, then the bits, eight to an octet. */
  function MarshalBits(bits: seq<bool>): seq<byte> {
    [(8 - |bits| % 8) % 8] + Octets(bits)
  }

  /** The octet has these bits, counted from the left, and zeros after them. */
  predicate Spells(octet: byte, bits: seq<bool>) {
    forall j :: 0 <= j < 8 ==> (IsSet(octet, j) <==> 7 - j < |bits| && bits[7 - j])
  }

  lemma OctetBits(bits: seq<bool>)
    requires |bits| <= 8
    ensures Spells(Octet(bits), bits)
    ensures EndsInZeros(Octet(bits), 8 - |bits|)
  {
    hide Number, Weight, IsSet;
    var all := bits + Zeros(8 - |bits|);
    forall j | 0 <= j < 8 ensures IsSet(Octet(bits), j) <==> 7 - j < |bits| && bits[7 - j] {
      NumberBit(all, 7 - j);
    }
    NumberSplits(bits, Zeros(8 - |bits|));
    ZerosNumber(8 - |bits|);
  }

  /** An octet whose last bits are zero is made of its first bits. */
  lemma OctetOf(v: byte, n: nat)
    requires n <= 8 && EndsInZeros(v, 8 - n)
    ensures Octet(seq(n, k requires 0 <= k < n => IsSet(v, 7 - k))) == v
  {
    hide Number, Weight, BitsOf, IsSet;
    EightBits();
    NumberOfBits(v, 8);
    var all := BitsOf(v, 8);
    var bits := seq(n, k requires 0 <= k < n => IsSet(v, 7 - k));
    forall k | 0 <= k < n ensures bits[k] == all[k] {
      NumberBit(all, k);
    }
    assert all == all[..n] + all[n..];
    NumberSplits(all[..n], all[n..]);
    NumberZero(all[n..]);
    assert all == bits + Zeros(8 - n);
  }

  /** The first `n` bits of octets. */
  function FirstBits(octets: seq<byte>, n: nat): (r: seq<bool>)
    requires n <= 8 * |octets|
    ensures |r| == n
  {
    seq(n, i requires 0 <= i < n => IsSet(octets[i / 8], 7 - i % 8))
  }

  lemma FirstBitsStep(octets: seq<byte>, n: nat)
    requires 0 < n <= 8 * |octets| && n > 8 * (|octets| - 1)
    ensures var k := Min(8, n);
            && n - k <= 8 * |octets[1..]|
            && FirstBits(octets, n)[..k] == seq(k, j requires 0 <= j < k => IsSet(octets[0], 7 - j))
            && FirstBits(octets, n)[k..] == FirstBits(octets[1..], n - k)
  {
    hide IsSet;
    var k := Min(8, n);
    var all, rest := FirstBits(octets, n), FirstBits(octets[1..], n - k);
    FirstEight(octets, n);
    forall j | 0 <= j < n - k ensures all[k..][j] == rest[j] {
      LaterBit(octets, n, j);
    }
    hide FirstBits;
    assert all[k..] == rest;
  }

  lemma FirstEight(octets: seq<byte>, n: nat)
    requires 0 < n <= 8 * |octets|
    ensures forall j :: 0 <= j < Min(8, n) ==> FirstBits(octets, n)[j] == IsSet(octets[0], 7 - j)
  {
    hide IsSet;
  }

  lemma LaterBit(octets: seq<byte>, n: nat, j: nat)
    requires 8 + j < n <= 8 * |octets|
    ensures FirstBits(octets, n)[8 + j] == FirstBits(octets[1..], n - 8)[j]
  {
    hide IsSet;
    EightMore(j);
  }

  lemma EightMore(j: nat)
    ensures (8 + j) / 8 == j / 8 + 1 && (8 + j) % 8 == j % 8
  {
  }

  lemma OctetsStep(bits: seq<bool>)
    requires bits != []
    ensures var k := Min(8, |bits|); Octets(bits) == [Octet(bits[..k])] + Octets(bits[k..])
  {
    hide Octet;
  }

  /** How many bits are unused. */
  lemma Unused(n: nat)
    ensures (8 - n % 8) % 8 == 8 * ((n + 7) / 8) - n
  {
  }

  /** Octets that hold `n` bits and end in zeros are those of their bits. */
  lemma {:induction false} OctetsOf(octets: seq<byte>, n: nat)
    requires n <= 8 * |octets| && n + 7 >= 8 * |octets|
    requires octets != [] ==> EndsInZeros(octets[|octets| - 1], 8 * |octets| - n)
    ensures Octets(FirstBits(octets, n)) == octets
  {
    hide IsSet, EndsInZeros, Octet, Octets, FirstBits;
    var bits := FirstBits(octets, n);
    if octets == [] {
      assert bits == [] && Octets([]) == [] by { NoBits(octets); }
    } else {
      var k := Min(8, n);
      FirstBitsStep(octets, n);
      OctetsStep(bits);
      NoZeros(octets[0]);
      OctetOf(octets[0], k);
      OctetsOf(octets[1..], n - k);
    }
  }

  lemma NoBits(octets: seq<byte>)
    ensures FirstBits(octets, 0) == [] && Octets([]) == []
  {
  }

  lemma NoZeros(octet: nat)
    ensures EndsInZeros(octet, 0)
  {
  }

  /** And the other way round. */
  lemma {:induction false} BitsOfOctets(bits: seq<bool>)
    ensures FirstBits(Octets(bits), |bits|) == bits
    ensures bits != [] ==> EndsInZeros(Octets(bits)[|Octets(bits)| - 1], 8 * |Octets(bits)| - |bits|)
  {
    hide IsSet, EndsInZeros, Octet, FirstBits, Octets;
    if bits == [] {
      NoBits(Octets(bits));
    } else {
      var k := Min(8, |bits|);
      var octets := Octets(bits);
      OctetsStep(bits);
      OctetBits(bits[..k]);
      BitsOfOctets(bits[k..]);
      FirstBitsStep(octets, |bits|);
      assert octets[1..] == Octets(bits[k..]);
      assert bits == bits[..k] + bits[k..];
      FirstOctet(bits[..k], octets[0]);
      var all := FirstBits(octets, |bits|);
      assert all == all[..k] + all[k..];
      if |bits| > 8 {
        assert octets[|octets| - 1] == octets[1..][|octets| - 2];
      }
    }
  }

  lemma FirstOctet(bits: seq<bool>, octet: byte)
    requires |bits| <= 8 && Spells(octet, bits)
    ensures seq(|bits|, j requires 0 <= j < |bits| => IsSet(octet, 7 - j)) == bits
  {
    hide IsSet;
  }

  /** Reading a bit string is the inverse of writing one: octets are read as bits exactly when they are written for them. */
  lemma BitStrings(data: seq<byte>, bits: seq<bool>)
    ensures Bits(data) == Some(bits) <==> data == MarshalBits(bits)
  {
    hide IsSet, EndsInZeros, Octets, FirstBits, Bits;
    if data == MarshalBits(bits) {
      Unused(|bits|);
      BitsOfOctets(bits);
      assert data[1..] == Octets(bits);
      NoZeros(data[0]);
      BitsAreFirst(data);
    }
    if Bits(data) == Some(bits) {
      BitsAreFirst(data);
      NoZeros(data[0]);
      OctetsOf(data[1..], |bits|);
      Unused(|bits|);
      assert data == [data[0]] + data[1..];
    }
  }

  /** `Bits`, over the octets after the first. */
  lemma BitsAreFirst(data: seq<byte>)
    ensures Bits(data).Some? <==>
            && data != [] && data[0] <= 7 && (|data| == 1 ==> data[0] == 0)
            && EndsInZeros(data[|data| - 1], data[0])
    ensures Bits(data).Some? ==> Bits(data).value == FirstBits(data[1..], (|data| - 1) * 8 - data[0])
  {
    hide IsSet, EndsInZeros;
  }

  /* ---------- notification events ---------- */

  /** The one bit that is set. */
  predicate OnlyBit(bits: seq<bool>, n: nat) {
    n < |bits| && forall k :: 0 <= k < |bits| ==> (bits[k] <==> k == n)
  }

  /**
   * An event is read from octets exactly when they are the bit string with one bit set whose number, cut to eight bits,
   * is 0, 1, 2 or 3.
   */
  lemma EventsRead(data: seq<byte>)
    ensures OneEvent(data) <==> exists bits, n :: data == MarshalBits(bits) && OnlyBit(bits, n) && n % 0x100 <= 3
  {
    hide Bits, MarshalBits;
    if OneEvent(data) {
      var bits := Bits(data).value;
      var n :| 0 <= n < |bits| && bits[n];
      BitStrings(data, bits);
      assert OnlyBit(bits, n);
    }
    forall bits, n | data == MarshalBits(bits) && OnlyBit(bits, n) && n % 0x100 <= 3 ensures OneEvent(data) {
      BitStrings(data, bits);
      assert bits[n];
    }
  }

  lemma OneBitOctet(bits: seq<bool>, n: nat)
    requires OnlyBit(bits, n) && |bits| <= 8
    ensures Octet(bits) == Weight(7 - n)
  {
    hide Number, Weight;
    var all := bits + Zeros(8 - |bits|);
    assert all == (Zeros(n) + [true]) + Zeros(7 - n);
    NumberConcat(Zeros(n) + [true], Zeros(7 - n));
    ZerosNumber(7 - n);
    ZerosNumber(n);
    NumberSnoc(Zeros(n));
  }

  lemma NumberSnoc(bits: seq<bool>)
    ensures Number(bits + [true]) == 2 * Number(bits) + 1
  {
    assert (bits + [true])[..|bits|] == bits;
  }

  /** The four events are written in four bits, the first of them as 04 80. */
  lemma EventOctets(n: nat)
    requires n < 4
    ensures [4, Weight(7 - n)] == MarshalBits(seq(4, k => k == n)) && OneEvent([4, Weight(7 - n)])
    ensures Weight(7) == 0x80
  {
    hide Octet, OneEvent, Weight;
    var bits := seq(4, k => k == n);
    OctetsStep(bits);
    assert bits[..4] == bits && bits[4..] == [];
    OneBitOctet(bits, n);
    assert OnlyBit(bits, n);
    EventsRead([4, Weight(7 - n)]);
    EightyIsTop();
  }

  lemma EightyIsTop()
    ensures Weight(7) == 0x80
  {
    assert Weight(4) == 16;
  }

  /* ---------- integers ---------- */

  /** 256 to the power of `k`. */
  function Power(k: nat): (r: nat)
    ensures r > 0
  {
    if k == 0 then 1 else 0x100 * Power(k - 1)
  }

  /** The number that octets spell in two's complement. */
  function Signed(data: seq<byte>): int
    requires data != []
  {
    BigEndian(data) - if data[0] >= 128 then Power(|data|) else 0
  }

  lemma {:induction false} BigEndianFirst(data: seq<byte>)
    requires data != []
    ensures BigEndian(data) == data[0] * Power(|data| - 1) + BigEndian(data[1..])
    ensures BigEndian(data[1..]) < Power(|data| - 1)
  {
    var n := |data| - 1;
    if n == 0 {
      assert BigEndian(data[..0]) == 0 && BigEndian(data[1..]) == 0;
    } else {
      var init := data[..n];
      BigEndianFirst(init);
      assert data[1..][..n - 1] == init[1..];
      Factor(data[0], Power(n - 1), BigEndian(init[1..]));
    }
  }

  lemma Factor(x: nat, w: nat, y: nat)
    ensures (x * w + y) * 0x100 == x * (0x100 * w) + y * 0x100
  {
  }

  /** An octet more than needed does not change the number. */
  lemma {:induction false} SignificantSame(data: seq<byte>)
    requires data != []
    ensures Signed(Significant(data)) == Signed(data)
    ensures Shortest(Significant(data))
  {
    if |data| > 1 && ((data[0] == 0 && data[1] < 128) || (data[0] == 0xFF && data[1] >= 128)) {
      SignificantSame(data[1..]);
      BigEndianFirst(data);
    }
  }

  /** The first octet is not redundant. */
  predicate Shortest(data: seq<byte>) {
    data != [] && (|data| > 1 ==> !(data[0] == 0 && data[1] < 128) && !(data[0] == 0xFF && data[1] >= 128))
  }

  /** The values of `octets` bytes in two's complement. */
  predicate InRange(value: int, octets: nat) {
    0 <= 2 * value + Power(octets) < 2 * Power(octets)
  }

  lemma SignedBounds(data: seq<byte>)
    requires data != []
    ensures InRange(Signed(data), |data|)
  {
    BigEndianFirst(data);
    FirstOctetBounds(data[0], Power(|data| - 1), BigEndian(data[1..]));
  }

  lemma FirstOctetBounds(first: byte, w: nat, low: nat)
    requires low < w
    ensures first < 128 ==> 0 <= 2 * (first * w + low) < 0x100 * w
    ensures first >= 128 ==> 0x100 * w <= 2 * (first * w + low) < 0x200 * w
  {
    if first < 128 {
      MoreOctets(first, 127, w);
    } else {
      MoreOctets(128, first, w);
      MoreOctets(first, 255, w);
    }
  }

  lemma MoreOctets(a: nat, b: nat, w: nat)
    requires a <= b
    ensures a * w <= b * w
  {
    assert (b - a) * w >= 0;
    assert a * w + (b - a) * w == b * w;
  }

  /** A shortest number of `n` octets does not fit fewer. */
  lemma ShortestNeedsAll(data: seq<byte>)
    requires Shortest(data) && |data| > 1
    ensures !InRange(Signed(data), |data| - 1)
  {
    BigEndianFirst(data);
    BigEndianFirst(data[1..]);
    var w := Power(|data| - 2);
    FirstOctetBounds(data[1], w, BigEndian(data[2..]));
    assert data[1..][1..] == data[2..];
    if 0 < data[0] < 128 {
      MoreOctets(1, data[0], Power(|data| - 1));
    } else if 128 <= data[0] < 255 {
      MoreOctets(data[0], 254, Power(|data| - 1));
    }
  }

  lemma {:induction false} PowerGrows(m: nat, n: nat)
    requires m <= n
    ensures Power(m) <= Power(n)
  {
    if m < n {
      PowerGrows(m, n - 1);
    }
  }

  /** An integer of any length is accepted exactly when its value fits the two's complement range of the target. */
  lemma IntegersThatFit(data: seq<byte>, size: nat)
    requires size > 0
    ensures IsInt(data, size) <==> data != [] && InRange(Signed(data), size)
  {
    hide Power, BigEndian, Significant;
    if data != [] {
      var s := Significant(data);
      SignificantSame(data);
      SignedBounds(s);
      if |s| <= size {
        PowerGrows(|s|, size);
      } else {
        ShortestNeedsAll(s);
        PowerGrows(size, |s| - 1);
      }
    }
  }
}
