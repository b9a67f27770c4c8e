/** Identifier octets (bertlv/tag.go; ITU-T X.690 section 8.1.2). A tag is kept as its raw octets. */
module BerTag {
  import opened Bytes

  type Class = c: int | 0 <= c < 4

  const CONTEXT_SPECIFIC: Class := 2

  datatype Form = Primitive | Constructed

  type Tag = seq<byte>

  /* ---------- high-tag-number octets as base-128 numbers ---------- */

  function Pow128(n: nat): nat {
    if n == 0 then 1 else 128 * Pow128(n - 1)
  }

  /** Base-128 digits of `v`, most significant first, without a leading zero digit. */
  function Septets(v: nat): (s: seq<byte>)
    ensures |s| > 0 && forall i :: 0 <= i < |s| ==> s[i] < 128
  {
    if v < 128 then [v] else Septets(v / 128) + [v % 128]
  }

  /** Sets bit 8 on every octet but the last. */
  function Continued(s: seq<byte>): (r: seq<byte>)
    requires forall i :: 0 <= i < |s| ==> s[i] < 128
    ensures |r| == |s|
  {
    seq(|s|, i requires 0 <= i < |s| => if i < |s| - 1 then s[i] + 128 else s[i])
  }

  /** The unbounded number that a run of octets spells in its low seven bits. */
  function Number(s: seq<byte>): nat {
    if s == [] then 0 else Number(s[..|s| - 1]) * 128 + s[|s| - 1] % 128
  }

  /** Bit 8 marks every octet but the last: the shape of a complete run. */
  predicate Run(s: seq<byte>) {
    && |s| > 0
    && s[|s| - 1] < 128
    && forall i :: 0 <= i < |s| - 1 ==> s[i] >= 128
  }

  lemma NumberSeptets(v: nat)
    ensures Number(Continued(Septets(v))) == v
    ensures Number(Septets(v)) == v
    ensures v > 0 ==> Septets(v)[0] != 0
  {
    hide Septets, Number;
    SeptetsSpell(v);
    ContinuedBits(Septets(v));
    NumberLowBits(Continued(Septets(v)), Septets(v));
  }

  lemma ContinuedBits(s: seq<byte>)
    requires forall i :: 0 <= i < |s| ==> s[i] < 128
    ensures |Continued(s)| == |s| && forall i :: 0 <= i < |s| ==> Continued(s)[i] % 128 == s[i] % 128
  {
  }

  lemma {:induction false} SeptetsSpell(v: nat)
    ensures Number(Septets(v)) == v
    ensures v > 0 ==> Septets(v)[0] != 0
  {
    var s := Septets(v);
    if v < 128 {
      assert s[..0] == [];
    } else {
      assert s[..|s| - 1] == Septets(v / 128);
      SeptetsSpell(v / 128);
    }
  }

  lemma {:induction false} NumberLowBits(a: seq<byte>, b: seq<byte>)
    requires |a| == |b|
    requires forall i :: 0 <= i < |a| ==> a[i] % 128 == b[i] % 128
    ensures Number(a) == Number(b)
  {
    if a == [] {
    } else {
      NumberLowBits(a[..|a| - 1], b[..|b| - 1]);
    }
  }

  /** The low bits of a run without a leading zero digit are the digits of its number. */
  lemma {:induction false} SeptetsNumber(s: seq<byte>)
    requires |s| > 0 && s[0] % 128 != 0
    ensures |Septets(Number(s))| == |s|
    ensures forall i :: 0 <= i < |s| ==> Septets(Number(s))[i] == s[i] % 128
    ensures Number(s) > 0
  {
    if |s| == 1 {
      assert s[..0] == [];
      assert Number(s) == s[0] % 128;
    } else {
      SeptetsNumber(s[..|s| - 1]);
    }
  }

  /** A run is the base-128 form of its own number. */
  lemma RunIsContinued(s: seq<byte>)
    requires Run(s) && s[0] % 128 != 0
    ensures Continued(Septets(Number(s))) == s
  {
    hide Septets, Number;
    SeptetsNumber(s);
  }

  lemma {:induction false} NumberBounds(s: seq<byte>)
    requires |s| > 0
    ensures s[0] % 128 * Pow128(|s| - 1) <= Number(s) < (s[0] % 128 + 1) * Pow128(|s| - 1)
  {
    var last := |s| - 1;
    if last == 0 {
      assert s[..0] == [];
      assert Number(s) == s[0] % 128;
    } else {
      NumberBounds(s[..last]);
      var d, p := s[0] % 128, Pow128(last - 1);
      assert Pow128(last) == 128 * p;
      assert d * (128 * p) == d * p * 128;
      assert (d + 1) * (128 * p) == (d + 1) * p * 128;
    }
  }

  lemma Pow128Values()
    ensures Pow128(8) == 0x100_0000_0000_0000 && Pow128(9) == 0x8000_0000_0000_0000
    ensures Pow128(10) == 0x8000_0000_0000_0000 * 128
  {
    assert Pow128(4) == 0x1000_0000;
    assert Pow128(8) == 128 * (128 * (128 * (128 * Pow128(4))));
    assert Pow128(9) == 128 * Pow128(8);
  }

  /* ---------- the tag encoding ---------- */

  function Leading(class_: Class, form: Form): byte {
    class_ * 64 + if form.Constructed? then 32 else 0
  }

  /** The identifier octets of a class, form and number. */
  function EncodeTag(class_: Class, form: Form, value: nat): Tag {
    if value < 31 then [Leading(class_, form) + value]
    else [Leading(class_, form) + 31] + Continued(Septets(value))
  }

  function ClassOf(t: Tag): Class
    requires |t| > 0
  {
    t[0] / 64
  }

  function FormOf(t: Tag): Form
    requires |t| > 0
  {
    if t[0] / 32 % 2 == 0 then Primitive else Constructed
  }

  /** The accumulating loop of `Value`: shift left by seven in 64 bits, stop at an octet without bit 8. */
  function Accumulate(t: Tag, index: nat, value: uint64): uint64
    requires index <= |t|
    decreases |t| - index
  {
    if index == |t| then value
    else
      var next := value * 128 % TWO_64 + t[index] % 128;
      if t[index] < 128 then next else Accumulate(t, index + 1, next)
  }

  function ValueOf(t: Tag): uint64
    requires |t| > 0
  {
    if t[0] % 32 != 31 then t[0] % 32 else Accumulate(t, 1, 0)
  }

  lemma {:induction false} AccumulateSnoc(t: Tag, index: nat, value: uint64)
    requires index < |t|
    requires forall i :: index <= i < |t| - 1 ==> t[i] >= 128
    ensures Accumulate(t, index, value) ==
            Accumulate(t[..|t| - 1], index, value) * 128 % TWO_64 + t[|t| - 1] % 128
    decreases |t| - index
  {
    if index + 1 < |t| {
      AccumulateSnoc(t, index + 1, value * 128 % TWO_64 + t[index] % 128);
    }
  }

  lemma ShiftModulo(n: nat, digit: nat)
    requires digit < 128
    ensures n % TWO_64 * 128 % TWO_64 + digit == (n * 128 + digit) % TWO_64
  {
    var q, r := n / TWO_64, n % TWO_64;
    var q', r' := r * 128 / TWO_64, r * 128 % TWO_64;
    assert r' % 128 == 0;
    assert n * 128 + digit == (q * 128 + q') * TWO_64 + (r' + digit);
    ModuloUnique(n * 128 + digit, q * 128 + q', r' + digit);
  }

  lemma ModuloUnique(n: nat, q: nat, r: nat)
    requires n == q * TWO_64 + r && r < TWO_64
    ensures n % TWO_64 == r
  {
  }

  /** 64-bit accumulation of octets is their number modulo 2^64. */
  lemma {:induction false} AccumulateIsNumber(t: Tag)
    requires |t| > 0
    requires forall i :: 1 <= i < |t| - 1 ==> t[i] >= 128
    ensures Accumulate(t, 1, 0) == Number(t[1..]) % TWO_64
  {
    if |t| > 1 {
      var init := t[..|t| - 1];
      AccumulateIsNumber(init);
      AccumulateSnoc(t, 1, 0);
      assert t[1..][..|t[1..]| - 1] == init[1..];
      ShiftModulo(Number(init[1..]), t[|t| - 1] % 128);
      assert t[1..][|t[1..]| - 1] == t[|t| - 1];
    }
  }

  /* ---------- the accepted tags ---------- */

  /** Exactly the octet strings that `Tag.ReadFrom` accepts as one whole tag. */
  predicate ValidTag(t: Tag) {
    && |t| > 0
    && if t[0] % 32 != 31 then |t| == 1
       else 2 <= |t| <= 11 && Run(t[1..]) && t[1] % 128 != 0 && ValueOf(t) >= 31
  }

  /** The reader's scan: `n` octets have been taken, the first announced a high tag number. */
  function ScanTag(s: seq<byte>, n: nat): Option<Tag>
    requires 1 <= n <= 11
    decreases 11 - n
  {
    if n == 11 || n >= |s| then None
    else if n == 1 && s[n] % 128 == 0 then None
    else if s[n] < 128 then
      if ValueOf(s[..n + 1]) < 31 then None else Some(s[..n + 1])
    else ScanTag(s, n + 1)
  }

  /** The tag at the head of `s`, if `Tag.ReadFrom` accepts one there. */
  function DecodeTag(s: seq<byte>): Option<Tag> {
    if |s| == 0 then None
    else if s[0] % 32 != 31 then Some(s[..1])
    else ScanTag(s, 1)
  }

  lemma {:induction false} ScanTagAccepts(s: seq<byte>, n: nat)
    requires 1 <= n <= 11 && n <= |s| && s[0] % 32 == 31
    requires forall i :: 1 <= i < n ==> s[i] >= 128
    requires n > 1 ==> s[1] % 128 != 0
    ensures forall t :: ScanTag(s, n) == Some(t) <==> |t| > n && t <= s && ValidTag(t)
    decreases 11 - n
  {
    if n == 11 {
      forall t | n < |t| && t <= s && ValidTag(t) ensures false {}
    } else if n < |s| && !(n == 1 && s[n] % 128 == 0) {
      if s[n] < 128 {
        var u := s[..n + 1];
        forall i | 0 <= i < |u[1..]| - 1 ensures u[1..][i] >= 128 { assert u[1..][i] == s[i + 1]; }
        forall t | |t| > n && t <= s && ValidTag(t) ensures t == u {
          assert t[1..][n - 1] == s[n];
        }
      } else {
        ScanTagAccepts(s, n + 1);
        forall t | |t| > n && t <= s && ValidTag(t) ensures |t| > n + 1 {
          assert t[1..][n - 1] == s[n];
        }
      }
    } else if n < |s| {
      forall t | |t| > n && t <= s && ValidTag(t) ensures false {}
    }
  }

  /** The reader takes a tag exactly when a valid tag is a prefix of the input, and takes that prefix. */
  lemma DecodeTagAccepts(s: seq<byte>, t: Tag)
    ensures DecodeTag(s) == Some(t) <==> t <= s && ValidTag(t)
  {
    if |s| > 0 && s[0] % 32 == 31 {
      ScanTagAccepts(s, 1);
    } else if |s| > 0 && t <= s && ValidTag(t) {
      assert t == s[..1];
    }
  }

  /* ---------- encoding and decoding undo each other ---------- */

  lemma SeptetsLength(v: nat, n: nat)
    requires n > 0 && v < Pow128(n)
    ensures |Septets(v)| <= n
  {
    if v >= 128 {
      assert Pow128(1) == 128;
      SeptetsLength(v / 128, n - 1);
    }
  }

  lemma RunContinued(v: nat)
    requires v > 0
    ensures Run(Continued(Septets(v))) && Continued(Septets(v))[0] % 128 != 0
  {
    NumberSeptets(v);
  }

  /** Every class, form and 64-bit number: the tag is valid and its accessors give all three back. */
  lemma EncodedTagDecodes(class_: Class, form: Form, value: uint64)
    ensures var t := EncodeTag(class_, form, value);
            ValidTag(t) && ClassOf(t) == class_ && FormOf(t) == form && ValueOf(t) == value
  {
    var t := EncodeTag(class_, form, value);
    if value >= 31 {
      LeadingParts(class_, form, 31);
      HighTagValid(t, value);
    } else {
      LeadingParts(class_, form, value);
    }
  }

  lemma LeadingParts(class_: Class, form: Form, low: nat)
    requires low < 32
    ensures var b := Leading(class_, form) + low;
            b % 32 == low && b / 64 == class_ && (b / 32 % 2 == 0 <==> form.Primitive?)
  {
  }

  lemma HighTagValid(t: Tag, value: uint64)
    requires value >= 31 && |t| > 0 && t[0] % 32 == 31 && t[1..] == Continued(Septets(value))
    ensures ValidTag(t) && ValueOf(t) == value
  {
    hide Septets, Continued, Number, Accumulate;
    RunContinued(value);
    NumberSeptets(value);
    RunValue(t);
    assert value < Pow128(10) by { Pow128Values(); }
    SeptetsLength(value, 10);
    assert |t| == 1 + |t[1..]|;
  }

  /** The value of a high-tag-number tag is the number its run spells, modulo 2^64. */
  lemma RunValue(t: Tag)
    requires |t| > 1 && t[0] % 32 == 31 && Run(t[1..])
    ensures ValueOf(t) == Number(t[1..]) % TWO_64
  {
    forall i | 1 <= i < |t| - 1 ensures t[i] >= 128 { assert t[i] == t[1..][i - 1]; }
    AccumulateIsNumber(t);
  }

  /** `ReadFrom` on the octets of `NewTag`, whatever follows them, returns that tag and takes all of it. */
  lemma TagRoundTrip(class_: Class, form: Form, value: uint64, rest: seq<byte>)
    ensures DecodeTag(EncodeTag(class_, form, value) + rest) == Some(EncodeTag(class_, form, value))
  {
    EncodedTagDecodes(class_, form, value);
    DecodeTagAccepts(EncodeTag(class_, form, value) + rest, EncodeTag(class_, form, value));
  }

  /**
   * An accepted tag is the `NewTag` of its own class, form and value exactly when its number fits 64 bits:
   * at most nine continuation octets, or ten of which the first spells 1.
   */
  lemma CanonicalTag(t: Tag)
    requires ValidTag(t)
    ensures t == EncodeTag(ClassOf(t), FormOf(t), ValueOf(t)) <==> |t| <= 10 || t[1] % 128 == 1
  {
    if t[0] % 32 == 31 {
      var run := t[1..];
      assert run[0] == t[1];
      RunValue(t);
      NumberFits(run);
      CanonicalRun(t);
    }
  }

  /** A first octet that does not announce a high tag number is the tag by itself. */
  lemma LowTagExactly(first: byte, rest: seq<byte>)
    ensures DecodeTag([first] + rest) == Some([first]) <==> first % 32 != 31
  {
    var s := [first] + rest;
    DecodeTagAccepts(s, [first]);
    assert [first] <= s;
  }

  /**
   * A high tag number is read, whatever follows it, exactly when it takes at most ten octets, has no leading zero digit,
   * and modulo 2^64 is at least 31; so also when it does not fit 64 bits.
   */
  lemma HighTagExactly(first: byte, run: seq<byte>, rest: seq<byte>)
    requires first % 32 == 31 && Run(run)
    ensures DecodeTag([first] + run + rest) == Some([first] + run) <==>
            |run| <= 10 && run[0] % 128 != 0 && Number(run) % TWO_64 >= 31
  {
    hide DecodeTag, Number;
    var t := [first] + run;
    assert t[1..] == run;
    DecodeTagAccepts(t + rest, t);
    RunValue(t);
  }

  lemma CanonicalRun(t: Tag)
    requires ValidTag(t) && t[0] % 32 == 31
    ensures t == EncodeTag(ClassOf(t), FormOf(t), ValueOf(t)) <==> ValueOf(t) == Number(t[1..])
  {
    var run := t[1..];
    var octets := Continued(Septets(ValueOf(t)));
    assert t == [t[0]] + run;
    assert Leading(ClassOf(t), FormOf(t)) + 31 == t[0];
    assert t == [t[0]] + octets <==> run == octets by {
      assert ([t[0]] + octets)[1..] == octets;
    }
    if run == octets {
      NumberSeptets(ValueOf(t));
    }
    if ValueOf(t) == Number(run) {
      RunIsContinued(run);
    }
  }

  lemma NumberFits(run: seq<byte>)
    requires 1 <= |run| <= 10 && run[0] % 128 != 0
    ensures Number(run) < TWO_64 <==> |run| <= 9 || run[0] % 128 == 1
  {
    NumberBounds(run);
    Pow128Values();
    if |run| <= 9 {
      Pow128Monotone(|run| - 1, 8);
      assert (run[0] % 128 + 1) * Pow128(|run| - 1) <= 128 * Pow128(8) by {
        MulLe(run[0] % 128 + 1, 128, Pow128(|run| - 1), Pow128(8));
      }
    } else if run[0] % 128 == 1 {
      assert Number(run) < 2 * Pow128(9);
    } else {
      MulLe(2, run[0] % 128, Pow128(9), Pow128(9));
    }
  }

  lemma MulLe(a: nat, b: nat, x: nat, y: nat)
    requires a <= b && x <= y
    ensures a * x <= b * y
  {
    assert a * x <= a * y;
  }

  lemma Pow128Monotone(m: nat, n: nat)
    requires m <= n
    ensures Pow128(m) <= Pow128(n)
  {
  }

  /* ---------- the loops of tag.go ---------- */

  method NewTag(class_: Class, form: Form, value: uint64) returns (tag: Tag)
    ensures tag == EncodeTag(class_, form, value)
  {
    var mask := Leading(class_, form);
    if value < 0x1f {
      return [mask + value];
    }
    var encoded := new byte[10](_ => 0);
    var index := FillSeptets(encoded, value);
    ContinueInPlace(encoded, index);
    tag := [mask + 0x1f] + encoded[index..];
  }

  /** The first loop of `NewTag`: the digits, right-aligned in the buffer. */
  method FillSeptets(encoded: array<byte>, value: uint64) returns (index: nat)
    requires encoded.Length == 10
    modifies encoded
    ensures index < 10 && encoded[index..] == Septets(value)
  {
    hide Septets;
    index := 10;
    var v := value;
    assert |Septets(v)| <= 10 by { Pow128Values(); SeptetsLength(v, 10); }
    assert Septets(value) == Septets(v) + encoded[10..];
    while true
      invariant 1 <= index <= 10
      invariant v >= 0 && |Septets(v)| <= index
      invariant Septets(value) == Septets(v) + encoded[index..]
      decreases index
    {
      ghost var done := encoded[index..];
      SeptetsStep(v);
      index := index - 1;
      encoded[index] := v % 128;
      assert encoded[index..] == [v % 128] + done;
      if v / 128 == 0 {
        return;
      }
      v := v / 128;
    }
  }

  lemma SeptetsStep(v: nat)
    ensures Septets(v) == if v < 128 then [v] else Septets(v / 128) + [v % 128]
  {
  }

  /** The second loop of `NewTag`: bit 8 on every octet from `index` on, except the last. */
  method ContinueInPlace(encoded: array<byte>, index: nat)
    requires index < encoded.Length
    requires forall i :: index <= i < encoded.Length ==> encoded[i] < 128
    modifies encoded
    ensures encoded[index..] == Continued(old(encoded[index..]))
  {
    var last := encoded.Length - 1;
    for i := index to last
      invariant forall j :: index <= j < i ==> encoded[j] == old(encoded[j]) + 128
      invariant forall j :: i <= j <= last ==> encoded[j] == old(encoded[j])
    {
      encoded[i] := encoded[i] + 128;
    }
  }

  method Value(t: Tag) returns (value: uint64)
    requires |t| > 0
    ensures value == ValueOf(t)
  {
    if t[0] % 32 != 31 {
      return t[0] % 32;
    }
    value := 0;
    for index := 1 to |t|
      invariant Accumulate(t, 1, 0) == Accumulate(t, index, value)
    {
      value := value * 128 % TWO_64 + t[index] % 128;
      if t[index] < 128 {
        return;
      }
    }
  }
}
