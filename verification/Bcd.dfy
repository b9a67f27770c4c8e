/** GSM-BCD identifiers (v2/identifier.go): hex digits with swapped nibbles, padded with F and cut at the last f. */
module Bcd {
  import opened Bytes

  predicate IsHex(c: char) {
    '0' <= c <= '9' || 'A' <= c <= 'F' || 'a' <= c <= 'f'
  }

  function Digit(c: char): nat
    requires IsHex(c)
  {
    if c <= '9' then c as int - '0' as int
    else if c <= 'F' then c as int - 'A' as int + 10
    else c as int - 'a' as int + 10
  }

  function Char(d: nat): (c: char)
    requires d < 16
    ensures IsHex(c)
  {
    if d < 10 then ('0' as int + d) as char else ('a' as int + (d - 10)) as char
  }

  predicate AllHex(s: string) {
    forall c <- s :: IsHex(c)
  }

  function Lower(s: string): string
    requires AllHex(s)
  {
    seq(|s|, i requires 0 <= i < |s| => if 'A' <= s[i] <= 'F' then (s[i] as int + 32) as char else s[i])
  }

  /** The bytes that an even number of hex digits writes out. */
  function FromHex(s: string): (b: seq<byte>)
    requires AllHex(s) && |s| % 2 == 0
    ensures |b| == |s| / 2
    decreases |s|
  {
    if s == [] then []
    else
      assert s[0] in s && s[1] in s;
      [Digit(s[0]) * 16 + Digit(s[1])] + FromHex(s[2..])
  }

  /** Lower-case hex. */
  function ToHex(b: seq<byte>): (s: string)
    ensures AllHex(s) && |s| == 2 * |b|
  {
    if b == [] then [] else [Char(b[0] / 16), Char(b[0] % 16)] + ToHex(b[1..])
  }

  function Swap(b: byte): byte {
    b % 16 * 16 + b / 16
  }

  function SwapAll(b: seq<byte>): seq<byte> {
    seq(|b|, i requires 0 <= i < |b| => Swap(b[i]))
  }

  /** The position of the last `c`, or the length when there is none. */
  function LastIndex(s: string, c: char): (p: nat)
    ensures p <= |s| && (p < |s| ==> s[p] == c) && (p == |s| <==> c !in s)
    ensures forall i :: p < i < |s| ==> s[i] != c
  {
    if s == [] then 0
    else if s[|s| - 1] == c then |s| - 1
    else
      var p := LastIndex(s[..|s| - 1], c);
      if p == |s| - 1 then |s| else p
  }

  function Padded(s: string): string {
    if |s| % 2 != 0 then s + "F" else s
  }

  lemma PaddedHex(s: string)
    requires AllHex(s)
    ensures AllHex(Padded(s)) && |Padded(s)| % 2 == 0
  {
  }

  /** `binaryCodedDecimalEncode`; `None` is an error. */
  function Encode(s: string): Option<seq<byte>> {
    if AllHex(s) then PaddedHex(s); Some(SwapAll(FromHex(Padded(s)))) else None
  }

  /** `binaryCodedDecimalDecode`. */
  function Decode(b: seq<byte>): string {
    var points := ToHex(SwapAll(b));
    points[..LastIndex(points, 'f')]
  }

  /* ---------- the two loops ---------- */

  lemma ShiftLeft(high: nat, low: nat)
    requires high < 16 && low < 16
    ensures (high * 16 + low) * 16 % 0x100 / 16 * 16 == low * 16 && high % 16 == high
  {
    assert (high * 16 + low) * 16 == high * 0x100 + low * 16;
  }

  /** The shifts and masks of both loops, on eight bits. */
  function SwapNibbles(v: nat): (r: byte)
    requires v < 0x100
    ensures r == Swap(v)
  {
    ShiftLeft(v / 16, v % 16);
    v / 16 % 16 + v * 16 % 0x100 / 16 * 16
  }

  /** Swaps the nibbles of every byte, in place. */
  method SwapInPlace(id: array<byte>)
    modifies id
    ensures id[..] == SwapAll(old(id[..]))
  {
    hide Swap, SwapNibbles;
    for k := 0 to id.Length
      invariant forall i :: 0 <= i < k ==> id[i] == Swap(old(id[i]))
      invariant forall i :: k <= i < id.Length ==> id[i] == old(id[i])
    {
      id[k] := SwapNibbles(id[k]);
    }
  }

  method EncodeDigits(value0: string) returns (r: Option<seq<byte>>)
    ensures r == Encode(value0)
  {
    var value := value0;
    for k := 0 to |value|
      invariant AllHex(value[..k])
    {
      if (value[k] < '0' || value[k] > '9') && (value[k] < 'A' || value[k] > 'F') && (value[k] < 'a' || value[k] > 'f') {
        assert value[k] in value && !IsHex(value[k]);
        return None;
      }
      assert value[..k + 1] == value[..k] + [value[k]];
    }
    assert value[..|value|] == value;
    PaddedHex(value);
    if |value| % 2 != 0 {
      value := value + "F";
    }
    var digits := FromHex(value);
    var id := new byte[|digits|](i requires 0 <= i < |digits| => digits[i]);
    assert id[..] == digits;
    SwapInPlace(id);
    r := Some(id[..]);
  }

  method DecodeDigits(value: array<byte>) returns (points: string)
    ensures points == Decode(value[..])
  {
    hide Swap, SwapNibbles, ToHex;
    var id := new byte[value.Length](_ => 0);
    for k := 0 to value.Length
      invariant forall i :: 0 <= i < k ==> id[i] == Swap(value[i])
    {
      id[k] := SwapNibbles(value[k]);
    }
    assert id[..] == SwapAll(value[..]);
    points := ToHex(id[..]);
    var index := LastIndex(points, 'f');
    if index != |points| {
      points := points[..index];
    }
  }

  /* ---------- the order of digits ---------- */

  lemma {:induction false} HexDigits(s: string, i: nat)
    requires AllHex(s) && |s| % 2 == 0 && i < |s| / 2
    ensures s[2 * i] in s && s[2 * i + 1] in s
    ensures FromHex(s)[i] == Digit(s[2 * i]) * 16 + Digit(s[2 * i + 1])
    decreases i
  {
    assert s[0] in s && s[1] in s && s[2 * i] in s && s[2 * i + 1] in s;
    if i > 0 {
      HexDigits(s[2..], i - 1);
      assert s[2..][2 * (i - 1)] == s[2 * i] && s[2..][2 * (i - 1) + 1] == s[2 * i + 1];
    }
  }

  /** Byte `i` of an encoded string has digit `2 * i` in its low nibble and digit `2 * i + 1` in its high one, or F. */
  lemma EncodedDigits(s: string, i: nat)
    requires AllHex(s) && i < (|s| + 1) / 2
    ensures Encode(s).Some? && |Encode(s).value| == (|s| + 1) / 2
    ensures s[2 * i] in s && (2 * i + 1 < |s| ==> s[2 * i + 1] in s)
    ensures Encode(s).value[i] % 16 == Digit(s[2 * i])
    ensures Encode(s).value[i] / 16 == if 2 * i + 1 < |s| then Digit(s[2 * i + 1]) else 15
  {
    hide FromHex;
    PaddedHex(s);
    HexDigits(Padded(s), i);
    assert s[2 * i] in s && (2 * i + 1 < |s| ==> s[2 * i + 1] in s);
    var low, high := Digit(Padded(s)[2 * i]), Digit(Padded(s)[2 * i + 1]);
    SwappedDigits(low, high);
  }

  lemma SwappedDigits(first: nat, second: nat)
    requires first < 16 && second < 16
    ensures Swap(first * 16 + second) % 16 == first && Swap(first * 16 + second) / 16 == second
  {
    var b: nat := first * 16 + second;
    assert b % 16 == second && b / 16 == first;
  }

  lemma {:induction false} DigitsOfBytes(b: seq<byte>, i: nat)
    requires i < |b|
    ensures ToHex(b)[2 * i] == Char(b[i] / 16) && ToHex(b)[2 * i + 1] == Char(b[i] % 16)
    decreases i
  {
    if i > 0 { DigitsOfBytes(b[1..], i - 1); }
  }

  /** Decoding reads the low nibble of each byte first, and gives the digits before the last f, or all if there is none. */
  lemma DecodedDigits(b: seq<byte>, k: nat)
    requires k < |Decode(b)|
    ensures |Decode(b)| <= 2 * |b| && Decode(b)[k] == Char(if k % 2 == 0 then b[k / 2] % 16 else b[k / 2] / 16)
  {
    hide ToHex;
    DigitsOfBytes(SwapAll(b), k / 2);
    NibblesSwapped(b[k / 2]);
  }

  lemma NibblesSwapped(b: byte)
    ensures Swap(b) / 16 == b % 16 && Swap(b) % 16 == b / 16
  {
    var high, low := b / 16, b % 16;
    var s: nat := Swap(b);
    assert s == low * 16 + high;
  }

  /* ---------- round trips ---------- */

  lemma SwapTwice(b: seq<byte>)
    ensures SwapAll(SwapAll(b)) == b
  {
    forall i | 0 <= i < |b| ensures Swap(Swap(b[i])) == b[i] {
      SwapOne(b[i]);
    }
  }

  lemma SwapOne(b: byte)
    ensures Swap(Swap(b)) == b
  {
    var high, low := b / 16, b % 16;
    var s: nat := Swap(b);
    assert s == low * 16 + high;
    assert s / 16 == low && s % 16 == high;
  }

  lemma {:induction false} FromHexToHex(b: seq<byte>)
    ensures FromHex(ToHex(b)) == b
  {
    if b != [] {
      FromHexToHex(b[1..]);
      var s := ToHex(b);
      assert s[2..] == ToHex(b[1..]);
      DigitChar(b[0] / 16);
      DigitChar(b[0] % 16);
    }
  }

  lemma DigitChar(d: nat)
    requires d < 16
    ensures Digit(Char(d)) == d
  {
  }

  lemma {:induction false} ToHexFromHex(s: string)
    requires AllHex(s) && |s| % 2 == 0
    ensures ToHex(FromHex(s)) == Lower(s)
    decreases |s|
  {
    if s != [] {
      assert s[0] in s && s[1] in s;
      ToHexFromHex(s[2..]);
      PairHex(s[0], s[1]);
      LowerPair(s);
      hide Char, Digit, Lower, AllHex;
      var n: nat := Digit(s[0]) * 16 + Digit(s[1]);
      assert FromHex(s) == [n] + FromHex(s[2..]);
      assert ([n] + FromHex(s[2..]))[1..] == FromHex(s[2..]);
    }
  }

  lemma LowerPair(s: string)
    requires AllHex(s) && |s| >= 2
    ensures AllHex([s[0], s[1]]) && AllHex(s[2..]) && Lower(s) == Lower([s[0], s[1]]) + Lower(s[2..])
  {
    hide IsHex;
    assert s[0] in s && s[1] in s;
    assert AllHex(s[2..]) by { forall c | c in s[2..] ensures c in s {} }
  }

  lemma PairHex(a: char, b: char)
    requires IsHex(a) && IsHex(b)
    ensures var n: nat := Digit(a) * 16 + Digit(b);
            n < 256 && [Char(n / 16), Char(n % 16)] == Lower([a, b])
  {
  }

  /** Cutting a string at its last `c` keeps it whole exactly when `c` does not occur. */
  lemma Decoded(s: string)
    requires AllHex(s)
    ensures Encode(s).Some? && Decode(Encode(s).value) == Lower(Padded(s))[..LastIndex(Lower(Padded(s)), 'f')]
  {
    PaddedHex(s);
    SwapTwice(FromHex(Padded(s)));
    ToHexFromHex(Padded(s));
  }

  /**
   * Encoding fails exactly on a character that is no hex digit. Decoding an encoded string gives it back in lower case
   * exactly when its length is odd or it holds no f; otherwise it is cut at the last one.
   */
  lemma DecodeEncode(s: string)
    ensures Encode(s).Some? <==> AllHex(s)
    ensures AllHex(s) ==> (Decode(Encode(s).value) == Lower(s) <==> |s| % 2 == 1 || ('f' !in s && 'F' !in s))
  {
    hide FromHex, ToHex;
    if AllHex(s) {
      Decoded(s);
      PaddedHex(s);
      var all := Lower(Padded(s));
      var p := LastIndex(all, 'f');
      if |s| % 2 == 1 {
        assert all[|s|] == 'f';
        assert p == |s|;
        assert all[..p] == Lower(s);
      } else {
        LowerF(s);
      }
    }
  }

  lemma LowerF(s: string)
    requires AllHex(s)
    ensures 'f' in Lower(s) <==> 'f' in s || 'F' in s
  {
    var t := Lower(s);
    forall i | 0 <= i < |s| ensures t[i] == 'f' <==> s[i] == 'f' || s[i] == 'F' {
      assert s[i] in s;
    }
    if 'f' in s || 'F' in s {
      var i :| 0 <= i < |s| && (s[i] == 'f' || s[i] == 'F');
      assert t[i] == 'f';
    }
  }

  /** Encoding a decoded byte string gives it back exactly when its digits hold no f, or end in one. */
  lemma EncodeDecode(b: seq<byte>)
    ensures var digits := ToHex(SwapAll(b));
            && Encode(Decode(b)).Some?
            && (Encode(Decode(b)) == Some(b) <==> 'f' !in digits || digits[|digits| - 1] == 'f')
  {
    hide FromHex, ToHex;
    var digits := ToHex(SwapAll(b));
    var p := LastIndex(digits, 'f');
    var cut := digits[..p];
    assert AllHex(cut) by { forall c | c in cut ensures c in digits {} }
    PaddedHex(cut);
    SwapTwice(b);
    FromHexToHex(SwapAll(b));
    if p == |digits| {
      assert cut == digits;
    } else if p == |digits| - 1 {
      LastPadding(b);
    } else {
      assert |Encode(cut).value| <= (p + 1) / 2 < |b|;
    }
  }

  /** A final f is what the padding puts back. */
  lemma LastPadding(b: seq<byte>)
    requires b != [] && ToHex(SwapAll(b))[2 * |b| - 1] == 'f'
    ensures var digits := ToHex(SwapAll(b));
            Encode(digits[..|digits| - 1]) == Some(b)
  {
    hide ToHex, FromHex;
    var digits := ToHex(SwapAll(b));
    var cut := digits[..|digits| - 1];
    assert AllHex(cut) by { forall c | c in cut ensures c in digits {} }
    PaddedHex(cut);
    ToHexLower(SwapAll(b));
    assert Lower(Padded(cut)) == digits;
    ToHexFromHex(Padded(cut));
    SameBytes(Padded(cut), SwapAll(b));
    SwapTwice(b);
  }

  lemma SameBytes(s: string, b: seq<byte>)
    requires AllHex(s) && |s| % 2 == 0 && Lower(s) == ToHex(b)
    ensures FromHex(s) == b
  {
    hide ToHex, FromHex;
    ToHexFromHex(s);
    FromHexToHex(FromHex(s));
    FromHexToHex(b);
  }

  lemma {:induction false} ToHexLower(b: seq<byte>)
    ensures Lower(ToHex(b)) == ToHex(b)
  {
    hide ToHex;
    FromHexToHex(b);
    ToHexFromHex(ToHex(b));
  }
}
