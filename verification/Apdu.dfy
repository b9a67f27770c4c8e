/** Command and response APDUs (uicc-go/apdu) and the class byte of a logical channel (ETSI TS 102 221 section 10.1.1). */
module Apdu {
  import opened Bytes

  const STORE_DATA: byte := 0xE2
  const GET_RESPONSE: byte := 0xC0

  datatype Request = Request(cla: byte, ins: byte, p1: byte, p2: byte, data: seq<byte>, le: Option<byte>)

  /** `MarshalBinary`; `None` when the data does not fit a short command. */
  function MarshalRequest(r: Request): Option<seq<byte>> {
    if |r.data| > 255 then None
    else Some([r.cla, r.ins, r.p1, r.p2]
              + (if r.data == [] then [] else [|r.data|] + r.data)
              + (if r.le.Some? then [r.le.value] else []))
  }

  /** `UnmarshalBinary`. */
  function UnmarshalRequest(bs: seq<byte>): Option<Request> {
    if |bs| < 4 then None
    else
      var rest := bs[4..];
      if |rest| == 0 then Some(Request(bs[0], bs[1], bs[2], bs[3], [], None))
      else if |rest| == 1 then Some(Request(bs[0], bs[1], bs[2], bs[3], [], Some(rest[0])))
      else
        var length: nat := rest[0];
        if |rest| < 1 + length then None
        else if |rest| == 1 + length then
          Some(Request(bs[0], bs[1], bs[2], bs[3], rest[1..1 + length], None))
        else if |rest| == 2 + length then
          Some(Request(bs[0], bs[1], bs[2], bs[3], rest[1..1 + length], Some(rest[1 + length])))
        else None
  }

  /** The card decodes every command that the terminal can marshal to the request it came from. */
  lemma RequestRoundTrip(r: Request)
    requires MarshalRequest(r).Some?
    ensures UnmarshalRequest(MarshalRequest(r).value) == Some(r)
  {
    var bs := MarshalRequest(r).value;
    var le := if r.le.Some? then [r.le.value] else [];
    if r.data == [] {
      assert bs[4..] == le;
    } else {
      assert bs[4..] == [|r.data|] + r.data + le;
      assert bs[4..][1..1 + |r.data|] == r.data;
    }
  }

  /* ---------- responses ---------- */

  function Data(r: seq<byte>): seq<byte> {
    if |r| < 2 then [] else r[..|r| - 2]
  }

  function SW1(r: seq<byte>): byte {
    if |r| < 2 then 0 else r[|r| - 2]
  }

  function SW2(r: seq<byte>): byte {
    if |r| < 2 then 0 else r[|r| - 1]
  }

  predicate OK(r: seq<byte>) {
    SW1(r) == 0x90 && SW2(r) == 0x00
  }

  predicate HasMore(r: seq<byte>) {
    SW1(r) == 0x61
  }

  /* ---------- logical channels ---------- */

  /** `cla & 0x9C`: bits 8, 5, 4 and 3. */
  function KeepBasic(cla: byte): byte {
    cla / 128 * 128 + cla / 4 % 8 * 4
  }

  /** `cla & 0xB0`: bits 8, 6 and 5. */
  function KeepFurther(cla: byte): byte {
    cla / 128 * 128 + cla / 16 % 4 * 16
  }

  /** `setChannelToCLA`. */
  function SetChannel(cla: byte, channel: byte): byte {
    if channel < 4 then KeepBasic(cla) + channel
    else if channel < 20 then KeepFurther(cla) + 0x40 + (channel - 4)
    else cla
  }

  /** The class of a proprietary command on a channel: first interindustry coding up to 3, further coding up to 19. */
  function ClassByte(channel: byte): byte {
    if channel < 4 then 0x80 + channel
    else if channel < 20 then 0xC0 + (channel - 4)
    else 0x80
  }

  /** The channel that the card reads from a class byte. */
  function ChannelOf(cla: byte): byte {
    if cla / 64 % 2 == 0 then cla % 4 else cla % 16 + 4
  }

  /** Setting the channel of a fresh or of a reused request gives the same class, from which the card recovers it. */
  lemma ChannelRoundTrip(channel: byte)
    ensures SetChannel(0x80, channel) == ClassByte(channel)
    ensures SetChannel(ClassByte(channel), channel) == ClassByte(channel)
    ensures channel < 20 <==> ChannelOf(ClassByte(channel)) == channel
  {
    if channel < 4 {
      BasicChannel(channel);
    } else if channel < 20 {
      FurtherChannel(channel);
    }
  }

  lemma BasicChannel(channel: byte)
    requires channel < 4
    ensures KeepBasic(0x80) == 0x80 && KeepBasic(0x80 + channel) == 0x80
  {
    assert (0x80 + channel) / 4 == 32;
  }

  lemma FurtherChannel(channel: byte)
    requires 4 <= channel < 20
    ensures KeepFurther(0x80) == 0x80 && KeepFurther(0xC0 + (channel - 4)) == 0x80
  {
    assert (0xC0 + (channel - 4)) / 16 == 12;
  }
}
