/**
 * Reading one sample from an MCP3008 10-bit analog-to-digital converter over
 * SPI: the channel guard, the three-byte request and the decoding of the
 * three-byte response. The SPI exchange itself is hardware I/O; it is a
 * parameter here, a function from the frame sent to the frame received.
 */
module Mcp3008 {
  import opened PyInt

  /** One byte on the bus. */
  type Byte = x: int | 0 <= x < 256

  /** An SPI transfer of this device is always three bytes long, each way. */
  type Frame = s: seq<Byte> | |s| == 3 witness [0, 0, 0]

  /** The full-duplex exchange on the bus: the frame clocked back for the frame sent. */
  type Bus = Frame -> Frame

  /** The channel the temperature sensor is wired to. */
  const TempSensorChannel: int := 0

  /** The value returned instead of a sample when the channel is out of range. */
  const Sentinel: int := -1

  /** The largest code a 10-bit converter produces. */
  const MaxSample: int := 1023

  /**
   * The device has eight single-ended inputs, numbered 0 to 7: a channel is
   * valid exactly when the reader's guard `channel < 0 or channel > 7` is
   * false, and a valid channel fits the three-bit channel-select field.
   */
  predicate ValidChannel(channel: int): (ok: bool)
    ensures ok <==> !(channel < 0 || channel > 7)
    ensures ok ==> BitAnd(channel, 7) == channel
  {
    if 0 <= channel <= 7 then
      assert Pow2(3) == 8;
      BitAndLowMask(channel, 3);
      true
    else
      false
  }

  /**
   * The request `[1, (8 + channel) << 4, 0]`: the start bit alone in the
   * first byte; in the second, the single-ended bit (bit 7) and the channel
   * number (bits 4 to 6) with the low nibble clear; a filler byte last.
   */
  function Request(channel: int): (req: Frame)
    requires ValidChannel(channel)
    ensures req[0] == 1 && req[2] == 0
    ensures Shr(req[1], 7) == 1
    ensures BitAnd(Shr(req[1], 4), 7) == channel
    ensures BitAnd(req[1], 15) == 0
    ensures 128 <= req[1] <= 240
  {
    RequestByteFields(channel);
    [1, Shl(8 + channel, 4), 0]
  }

  /** The fields of the middle request byte `(8 + channel) << 4`. */
  lemma RequestByteFields(channel: int)
    requires 0 <= channel <= 7
    ensures 128 <= Shl(8 + channel, 4) <= 240
    ensures Shr(Shl(8 + channel, 4), 7) == 1
    ensures BitAnd(Shr(Shl(8 + channel, 4), 4), 7) == channel
    ensures BitAnd(Shl(8 + channel, 4), 15) == 0
  {
    assert Pow2(3) == 8 && Pow2(4) == 16 && Pow2(7) == 128;
    var b := Shl(8 + channel, 4);
    assert b == 16 * (8 + channel);
    assert Shr(b, 4) == 8 + channel && b % 16 == 0;
    BitAndLowMask(b, 4);
    BitAndLowMask(8 + channel, 3);
    ModUnique(8 + channel, 8, 1, channel);
    assert Shr(b, 7) == b / 128 == 1;
  }

  /**
   * The sample carried by a response, `((r[1] & 3) << 8) + r[2]`: the two
   * low bits of the middle byte are bits 9 and 8, the last byte bits 7 to 0.
   */
  function Decode(resp: Frame): (v: int)
    ensures 0 <= v <= MaxSample
    ensures v == (resp[1] as int % 4) * 256 + resp[2] as int
  {
    assert Pow2(2) == 4 && Pow2(8) == 256;
    BitAndLowMask(resp[1], 2);
    Shl(BitAnd(resp[1], 3), 8) + resp[2]
  }

  /** What one call of the reader does: the frames it put on the bus and the value it returned. */
  datatype Reading = Reading(transfers: seq<Frame>, value: int)

  /**
   * The reader: a channel outside 0..7 gives the sentinel without touching
   * the bus; otherwise exactly one transfer of the request, and the decoded
   * response. A valid sample is never negative, so the sentinel cannot be
   * mistaken for one.
   */
  function ReadAdc(channel: int, bus: Bus): (r: Reading)
    ensures !ValidChannel(channel) ==> r.transfers == [] && r.value == Sentinel
    ensures ValidChannel(channel) ==>
              r.transfers == [Request(channel)] && r.value == Decode(bus(Request(channel)))
    ensures r.value == Sentinel <==> !ValidChannel(channel)
    ensures Sentinel <= r.value <= MaxSample
  {
    if channel < 0 || channel > 7 then
      Reading([], Sentinel)
    else
      var req := Request(channel);
      Reading([req], Decode(bus(req)))
  }

  /**
   * The response of a converter that sampled v, as the decoder expects it:
   * any first byte, then `v >> 8`, then `v & 0xFF`.
   */
  function SampleResponse(first: Byte, v: int): (resp: Frame)
    requires 0 <= v <= MaxSample
    ensures resp[0] == first && resp[1] < 4
  {
    assert Pow2(8) == 256;
    BitAndLowMask(v, 8);
    [first, Shr(v, 8), BitAnd(v, 255)]
  }

  /** Round trip: every 10-bit code survives the response framing, whatever the first byte is. */
  lemma DecodeSampleResponse(first: Byte, v: int)
    requires 0 <= v <= MaxSample
    ensures Decode(SampleResponse(first, v)) == v
  {
    assert Pow2(8) == 256;
    BitAndLowMask(v, 8);
  }

  /** Round trip the other way: re-framing a decoded response restores its two meaningful bytes. */
  lemma SampleResponseOfDecode(resp: Frame)
    ensures SampleResponse(resp[0], Decode(resp)) == [resp[0], resp[1] % 4, resp[2]]
  {
    var v := Decode(resp);
    assert Pow2(8) == 256;
    BitAndLowMask(v, 8);
    ModUnique(v, 256, resp[1] % 4, resp[2]);
  }

  /**
   * Two responses decode alike exactly when they agree on the low two bits
   * of the middle byte and on the last byte; the first byte and the upper
   * six bits of the middle byte never matter.
   */
  lemma DecodeDeterminedByLowBits(r: Frame, s: Frame)
    ensures Decode(r) == Decode(s) <==> (r[1] % 4 == s[1] % 4 && r[2] == s[2])
  {
  }

  /** Distinct channels put distinct requests on the bus. */
  lemma RequestInjective(c: int, d: int)
    requires ValidChannel(c) && ValidChannel(d)
    ensures Request(c) == Request(d) <==> c == d
  {
  }

  /** A converter that holds the code v: it answers every request with the framing of v. */
  function Holding(first: Byte, v: int): Bus
    requires 0 <= v <= MaxSample
  {
    _ => SampleResponse(first, v)
  }

  /** Reading a converter that holds v on a valid channel returns v. */
  lemma ReadAdcOfSample(channel: int, first: Byte, v: int)
    requires ValidChannel(channel) && 0 <= v <= MaxSample
    ensures ReadAdc(channel, Holding(first, v)).value == v
  {
    DecodeSampleResponse(first, v);
  }

  /** The sensor channel is valid, so the sampling loop never sees the sentinel. */
  lemma SensorReadIsSample(bus: Bus)
    ensures 0 <= ReadAdc(TempSensorChannel, bus).value <= MaxSample
    ensures ReadAdc(TempSensorChannel, bus).transfers == [[1, 128, 0]]
  {
  }

  /** A sample response: middle byte 1, last byte 200, gives 456. */
  lemma DecodeExample()
    ensures Decode([0, 1, 200]) == 456
  {
  }
}
