/**
  The byte layout of an MCIP telegram as the receive loops of mcip-tool read it:
  a 16-bit little-endian declared length in bytes 3 and 4, an event tag in
  byte 11, and a payload window that starts at byte 7.
 */
module Telegram {

  /** An unsigned 8-bit value, as `uint8_t`. */
  type byte = b: int | 0 <= b < 0x100

  /** An unsigned 16-bit value, as `uint16_t`. */
  type uint16 = v: int | 0 <= v < 0x1_0000

  /** Size of the stack buffer `p` in every receive loop. */
  const Capacity: nat := 1500

  /** Offsets of the two bytes of the declared length. */
  const LengthLo: nat := 3
  const LengthHi: nat := 4

  /** read_from_mcip looks at the declared length once this many bytes are in. */
  const RawMinimum: nat := 5

  /** The SMS and input loops look at it once MORE than this many bytes are in. */
  const WindowThreshold: nat := 7

  /** The window printed by the SMS and input loops is [PayloadStart, declared + WindowEndBias). */
  const PayloadStart: nat := 7
  const WindowEndBias: nat := 5

  /** Offset of the event tag tested by the input and pulse loop. */
  const EventOffset: nat := 11

  const InputEvent: byte := 0x69  // 'i'
  const PulseEvent: byte := 0x70  // 'p'
  const Newline: byte := 0x0A

  /** The low byte of a 16-bit value; the model writes the mask `v & 0x00FF` as v % 256. */
  function Low(v: uint16): byte
  {
    v % 0x100
  }

  /** The high byte of a 16-bit value; the model writes `(v & 0xFF00) >> 8` as v / 256. */
  function High(v: uint16): byte
  {
    v / 0x100
  }

  /**
    Little-endian decode of two bytes, `lo | hi << 8`; the model writes the or
    of these disjoint bit ranges as the sum lo + 256 * hi.
   */
  function Le16(lo: byte, hi: byte): (v: uint16)
  {
    lo + 0x100 * hi
  }

  /** Joining two bytes little-endian and splitting the value again gives the bytes back. */
  lemma BytesOfLe16(lo: byte, hi: byte)
    ensures Low(Le16(lo, hi)) == lo && High(Le16(lo, hi)) == hi
  {
  }

  /** Splitting a value into its two little-endian bytes and joining them again gives it back. */
  lemma Le16OfBytes(v: uint16)
    ensures Le16(Low(v), High(v)) == v
  {
  }

  /** The declared length of the telegram in `buf`, `p[3] | p[4] << 8`. */
  function DeclaredLen(buf: seq<byte>): (n: nat)
    requires |buf| > LengthHi
    ensures n < 0x1_0000
  {
    Le16(buf[LengthLo], buf[LengthHi])
  }

  /** `length >= (p[3] | p[4] << 8)`: the fill count has reached the declared length. */
  predicate Complete(buf: seq<byte>, length: nat)
    requires |buf| > LengthHi
  {
    length >= DeclaredLen(buf)
  }

  /** One past the last index the SMS and input loops print. */
  function WindowEnd(buf: seq<byte>): nat
    requires |buf| > LengthHi
  {
    DeclaredLen(buf) + WindowEndBias
  }

  /** The printed window stays inside the buffer. */
  predicate WindowInBuffer(buf: seq<byte>)
    requires |buf| > LengthHi
  {
    WindowEnd(buf) <= |buf|
  }

  /** The bytes `p[7] .. p[declared + 4]` that the SMS and input loops print. */
  function Window(buf: seq<byte>): (w: seq<byte>)
    requires |buf| > LengthHi && WindowInBuffer(buf)
    ensures |w| == if DeclaredLen(buf) <= 2 then 0 else DeclaredLen(buf) - 2
    ensures forall k :: 0 <= k < |w| ==> w[k] == buf[PayloadStart + k]
  {
    if WindowEnd(buf) <= PayloadStart then [] else buf[PayloadStart..WindowEnd(buf)]
  }

  /**
    Where the window lies relative to the data of a complete telegram: it is empty
    exactly when the declared length is at most 2, it ends at most 5 bytes past the
    received data, and in the 1500-byte buffer it fits exactly when the declared
    length is at most 1495.
   */
  lemma WindowBounds(buf: seq<byte>, length: nat)
    requires |buf| == Capacity && length > WindowThreshold && Complete(buf, length)
    ensures WindowEnd(buf) <= PayloadStart <==> DeclaredLen(buf) <= 2
    ensures WindowEnd(buf) <= length + WindowEndBias
    ensures WindowEnd(buf) > length <==> DeclaredLen(buf) > length - WindowEndBias
    ensures WindowInBuffer(buf) <==> DeclaredLen(buf) <= Capacity - WindowEndBias
  {
  }

  /** The event filter of get_input: 'i' in input mode, 'p' in pulse mode. */
  function Accept(pulses: bool, event: byte): (ok: bool)
    ensures ok <==> event == (if pulses then PulseEvent else InputEvent)
  {
    if !pulses && event == InputEvent then true
    else if pulses && event == PulseEvent then true
    else false
  }

  /** An input-change telegram passes the input filter and fails the pulse filter, and the other way round. */
  lemma FiltersAreExclusive(event: byte)
    ensures event == InputEvent ==> Accept(false, event) && !Accept(true, event)
    ensures event == PulseEvent ==> Accept(true, event) && !Accept(false, event)
    ensures !(Accept(false, event) && Accept(true, event))
  {
  }

  /** Which consumer reads the telegram: the SMS listener prints every complete one. */
  datatype Mode = Sms | Events(pulses: bool)

  predicate Admits(mode: Mode, buf: seq<byte>)
    requires |buf| > EventOffset
  {
    match mode
    case Sms => true
    case Events(pulses) => Accept(pulses, buf[EventOffset])
  }
}
