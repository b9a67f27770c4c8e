/** Length octets, definite form only, one to four bytes (bertlv/length.go; ITU-T X.690 section 8.1.3). */
module BerLength {
  import opened Bytes

  /** The first content length that no length field can announce. */
  const LENGTH_LIMIT: nat := 0x100_0000

  function MarshalLength(n: nat): (r: seq<byte>)
    requires n < LENGTH_LIMIT
    ensures 1 <= |r| <= 4
  {
    if n < 128 then [n]
    else if n < 0x100 then [0x81, n]
    else if n < 0x1_0000 then [0x82, n / 0x100, n % 0x100]
    else [0x83, n / 0x100 / 0x100, n / 0x100 % 0x100, n % 0x100]
  }

  /** An announced length and the number of octets that announce it. */
  datatype Field = Field(length: nat, octets: nat)

  function Shift8(high: nat, low: nat): nat {
    high * 0x100 + low
  }

  /** The length field at the head of `s`. */
  function DecodeLength(s: seq<byte>): (r: Option<Field>)
    ensures r.Some? ==> r.value.length < LENGTH_LIMIT && 1 <= r.value.octets <= Min(|s|, 4)
  {
    if |s| == 0 then None
    else if s[0] < 0x80 then Some(Field(s[0], 1))
    else if s[0] == 0x81 && |s| >= 2 then Some(Field(s[1], 2))
    else if s[0] == 0x82 && |s| >= 3 then Some(Field(Shift8(s[1], s[2]), 3))
    else if s[0] == 0x83 && |s| >= 4 then Some(Field(Shift8(Shift8(s[1], s[2]), s[3]), 4))
    else None
  }

  /** No shorter length field announces the same number. */
  predicate MinimalField(length: nat, octets: nat) {
    match octets
    case 1 => true
    case 2 => 0x80 <= length
    case 3 => 0x100 <= length
    case _ => 0x1_0000 <= length
  }

  /** The number that octets spell, most significant first. */
  function BigEndian(octets: seq<byte>): nat {
    if octets == [] then 0 else BigEndian(octets[..|octets| - 1]) * 0x100 + octets[|octets| - 1]
  }

  /** A first octet below 128 is the length itself. */
  lemma ShortForm(n: byte, rest: seq<byte>)
    ensures n < 128 ==> DecodeLength([n] + rest) == Some(Field(n, 1))
  {
  }

  lemma Spelled(octets: seq<byte>)
    requires 1 <= |octets| <= 3
    ensures |octets| == 1 ==> BigEndian(octets) == octets[0]
    ensures |octets| == 2 ==> BigEndian(octets) == Shift8(octets[0], octets[1])
    ensures |octets| == 3 ==> BigEndian(octets) == Shift8(Shift8(octets[0], octets[1]), octets[2])
  {
    var n := |octets|;
    assert BigEndian([]) == 0;
    assert octets[..1][..0] == [] && octets[..n] == octets;
    assert BigEndian(octets[..1]) == octets[0];
    if n >= 2 {
      assert octets[..2][..1] == octets[..1];
      assert BigEndian(octets[..2]) == Shift8(octets[0], octets[1]);
    }
    if n == 3 {
      assert octets[..n - 1] == octets[..2];
      assert BigEndian(octets) == Shift8(BigEndian(octets[..2]), octets[2]);
    }
  }

  lemma LongFields(s: seq<byte>)
    ensures |s| >= 2 && s[0] == 0x81 ==> DecodeLength(s) == Some(Field(s[1], 2))
    ensures |s| >= 3 && s[0] == 0x82 ==> DecodeLength(s) == Some(Field(Shift8(s[1], s[2]), 3))
    ensures |s| >= 4 && s[0] == 0x83 ==> DecodeLength(s) == Some(Field(Shift8(Shift8(s[1], s[2]), s[3]), 4))
  {
    hide Shift8;
  }

  /** One to three octets after their count are read as their big-endian number, whether or not that is minimal. */
  lemma LongForm(s: seq<byte>, k: nat)
    requires 1 <= k <= 3 && |s| > k && s[0] == 0x80 + k
    ensures DecodeLength(s) == Some(Field(BigEndian(s[1..1 + k]), 1 + k))
  {
    hide BigEndian, Shift8, DecodeLength;
    Spelled(s[1..1 + k]);
    LongFields(s);
  }

  /** Any other first octet, and a field that is cut off, is refused. */
  lemma OtherForms(s: seq<byte>)
    ensures DecodeLength(s).None? <==> s == [] || s[0] == 0x80 || s[0] > 0x83 || (s[0] > 0x80 && |s| <= s[0] - 0x80)
  {
  }

  lemma LengthRoundTrip(n: nat, rest: seq<byte>)
    requires n < LENGTH_LIMIT
    ensures DecodeLength(MarshalLength(n) + rest) == Some(Field(n, |MarshalLength(n)|))
  {
    var s := MarshalLength(n) + rest;
    assert forall i :: 0 <= i < |MarshalLength(n)| ==> s[i] == MarshalLength(n)[i];
  }

  /** Re-encoding an accepted length never lengthens it, and restores the very octets iff they were minimal. */
  lemma LengthCanonical(s: seq<byte>)
    requires DecodeLength(s).Some?
    ensures var Field(n, k) := DecodeLength(s).value;
            && |MarshalLength(n)| <= k
            && (MinimalField(n, k) ==> MarshalLength(n) == s[..k])
            && (!MinimalField(n, k) ==> |MarshalLength(n)| < k)
  {
    var Field(n, k) := DecodeLength(s).value;
    if k == 3 {
      ShiftBack(s[1], s[2]);
    } else if k == 4 {
      ShiftBack(s[1], s[2]);
      ShiftBack(Shift8(s[1], s[2]), s[3]);
    }
  }

  lemma ShiftBack(high: nat, low: byte)
    ensures Shift8(high, low) / 0x100 == high && Shift8(high, low) % 0x100 == low
  {
  }

  lemma MarshalLengthMonotone(m: nat, n: nat)
    requires m <= n < LENGTH_LIMIT
    ensures |MarshalLength(m)| <= |MarshalLength(n)|
  {
  }
}
