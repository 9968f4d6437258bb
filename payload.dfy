/**
  The radio payload built by vTransmit: the first MSG_LEN bytes of a C
  string message followed by a 4-byte timestamp, and a parser that reads
  the two parts back.
 */
module Payload {
  import opened Common

  newtype byte = x: int | 0 <= x < 0x100

  /** Number of message bytes copied into the payload (8 id characters, 1 state character, NUL). */
  const MSG_LEN: nat := 10
  const TIMESTAMP_LEN: nat := 4
  const PAYLOAD_LEN: nat := MSG_LEN + TIMESTAMP_LEN

  /** Message sent when the button is seen pressed, and otherwise. */
  const MSG0: string := "test00010"
  const MSG1: string := "test00011"

  /** Characters a C string can hold, one byte each: 7-bit and not NUL. */
  predicate IsAsciiText(s: string) {
    forall i :: 0 <= i < |s| ==> 0 < s[i] as int < 0x80
  }

  /** A message vTransmit may be given: its C string has at least MSG_LEN bytes. */
  predicate IsMessage(s: string) {
    IsAsciiText(s) && |s| + 1 >= MSG_LEN
  }

  /** The bytes a C string occupies in memory: its characters, then the NUL terminator. */
  function CString(s: string): (b: seq<byte>)
    requires IsAsciiText(s)
    ensures |b| == |s| + 1 && b[|s|] == 0
    ensures forall i :: 0 <= i < |s| ==> b[i] as int == s[i] as int && b[i] != 0
  {
    seq(|s|, i requires 0 <= i < |s| => s[i] as int as byte) + [0]
  }

  /** The characters of a NUL-terminated byte string, up to the first NUL or its end. */
  function TextOf(b: seq<byte>): (s: string)
    ensures |s| <= |b|
  {
    if b == [] || b[0] == 0 then [] else [b[0] as int as char] + TextOf(b[1..])
  }

  /** Reading a C string back yields the original text. */
  lemma {:induction false} TextOfCString(s: string)
    requires IsAsciiText(s)
    ensures TextOf(CString(s)) == s
  {
    if s != [] {
      var b := CString(s);
      assert b[0] as int == s[0] as int;
      assert IsAsciiText(s[1..]);
      assert b[1..] == CString(s[1..]);
      TextOfCString(s[1..]);
    }
  }

  /** A uint32_t timestamp as four bytes, most significant first. */
  function EncodeU32(t: uint32): (b: seq<byte>)
    ensures |b| == TIMESTAMP_LEN
    ensures b[0] as int * 0x100_0000 + b[1] as int * 0x1_0000 + b[2] as int * 0x100 + b[3] as int == t as int
  {
    var q1 := t as int / 0x100;
    var q2 := q1 / 0x100;
    var q3 := q2 / 0x100;
    assert q3 * 0x100 + q2 % 0x100 == q2;
    assert q2 * 0x100 + q1 % 0x100 == q1;
    assert q1 * 0x100 + t as int % 0x100 == t as int;
    [q3 as byte, (q2 % 0x100) as byte, (q1 % 0x100) as byte, (t as int % 0x100) as byte]
  }

  /** Four bytes, most significant first, as a uint32_t. */
  function DecodeU32(b: seq<byte>): (t: uint32)
    requires |b| == TIMESTAMP_LEN
  {
    (((b[0] as int * 0x100 + b[1] as int) * 0x100 + b[2] as int) * 0x100 + b[3] as int) as uint32
  }

  /** Decoding an encoded timestamp gives it back. */
  lemma DecodeEncodeU32(t: uint32)
    ensures DecodeU32(EncodeU32(t)) == t
  {
    var q1 := t as int / 0x100;
    var q2 := q1 / 0x100;
    var q3 := q2 / 0x100;
    assert q3 * 0x100 + q2 % 0x100 == q2;
    assert q2 * 0x100 + q1 % 0x100 == q1;
    assert q1 * 0x100 + t as int % 0x100 == t as int;
  }

  /** Encoding a decoded 4-byte string gives it back: the encoding is a bijection. */
  lemma EncodeDecodeU32(b: seq<byte>)
    requires |b| == TIMESTAMP_LEN
    ensures EncodeU32(DecodeU32(b)) == b
  {
    var x1 := b[0] as int * 0x100 + b[1] as int;
    var x2 := x1 * 0x100 + b[2] as int;
    var t := x2 * 0x100 + b[3] as int;
    assert t / 0x100 == x2 && t % 0x100 == b[3] as int;
    assert x2 / 0x100 == x1 && x2 % 0x100 == b[2] as int;
    assert x1 / 0x100 == b[0] as int && x1 % 0x100 == b[1] as int;
  }

  /** The payload: the first MSG_LEN bytes of the message's C string, then the timestamp. */
  function Layout(msg: string, timestamp: uint32): (p: seq<byte>)
    requires IsMessage(msg)
    ensures |p| == PAYLOAD_LEN
  {
    CString(msg)[..MSG_LEN] + EncodeU32(timestamp)
  }

  /** What a receiver reads from a payload: the message text and the timestamp. */
  datatype Received = Received(text: string, timestamp: uint32)

  function Parse(p: seq<byte>): (r: Option<Received>)
    ensures r.Some? <==> |p| == PAYLOAD_LEN
  {
    if |p| != PAYLOAD_LEN then None
    else Some(Received(TextOf(p[..MSG_LEN]), DecodeU32(p[MSG_LEN..])))
  }

  /** A message of exactly MSG_LEN - 1 characters and its timestamp are read back unchanged. */
  lemma ParseLayout(msg: string, timestamp: uint32)
    requires IsAsciiText(msg) && |msg| == MSG_LEN - 1
    ensures Parse(Layout(msg, timestamp)) == Some(Received(msg, timestamp))
  {
    var p := Layout(msg, timestamp);
    assert CString(msg)[..MSG_LEN] == CString(msg);
    assert p[..MSG_LEN] == CString(msg);
    assert p[MSG_LEN..] == EncodeU32(timestamp);
    TextOfCString(msg);
    DecodeEncodeU32(timestamp);
  }

  /** MSG0 and MSG1 each fill the message field exactly (9 characters plus NUL)
      and differ only in their last, state character. */
  lemma MessagesFitLayout()
    ensures IsAsciiText(MSG0) && IsAsciiText(MSG1)
    ensures |MSG0| == |MSG1| == MSG_LEN - 1
    ensures MSG0[..MSG_LEN - 2] == MSG1[..MSG_LEN - 2]
    ensures MSG0[MSG_LEN - 2] == '0' && MSG1[MSG_LEN - 2] == '1'
  {
  }

  /** The receiver can always tell the two messages apart, whatever the timestamps. */
  lemma LayoutsDistinguishMessages(t0: uint32, t1: uint32)
    ensures Layout(MSG0, t0)[MSG_LEN - 2] != Layout(MSG1, t1)[MSG_LEN - 2]
    ensures Layout(MSG0, t0) != Layout(MSG1, t1)
  {
    assert Layout(MSG0, t0)[MSG_LEN - 2] == CString(MSG0)[MSG_LEN - 2];
    assert Layout(MSG1, t1)[MSG_LEN - 2] == CString(MSG1)[MSG_LEN - 2];
  }
}
