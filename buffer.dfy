/**
  The value view of a receive buffer: the 1500 bytes of `p` and the fill count
  `length`. Bytes at or past `length` are whatever an earlier telegram, or the
  uninitialised stack, left there.
 */
module Buffer {
  import opened Telegram
  import opened Bus

  datatype Rx = Rx(buf: seq<byte>, length: nat)

  /** `0 <= length <= 1500` over a 1500-byte buffer. */
  predicate Wf(rx: Rx)
  {
    |rx.buf| == Capacity && rx.length <= Capacity
  }

  /** What the loops ask `read` for: `1500 - length`. */
  function Room(rx: Rx): nat
    requires Wf(rx)
  {
    Capacity - rx.length
  }

  /** The buffer after `read` wrote `chunk` at offset `at`; nothing else changes. */
  function Store(buf: seq<byte>, at: nat, chunk: seq<byte>): (r: seq<byte>)
    requires at + |chunk| <= |buf|
    ensures |r| == |buf|
    ensures forall i :: 0 <= i < |r| ==> r[i] == if at <= i < at + |chunk| then chunk[i - at] else buf[i]
  {
    buf[..at] + chunk + buf[at + |chunk|..]
  }

  /** A positive read of `chunk` at the fill count: `length += x`. */
  function Append(rx: Rx, chunk: seq<byte>): (r: Rx)
    requires Wf(rx) && |chunk| <= Room(rx)
    ensures Wf(r) && r.length == rx.length + |chunk|
    ensures r.buf[..r.length] == rx.buf[..rx.length] + chunk
    ensures r.buf[r.length..] == rx.buf[r.length..]
  {
    Rx(Store(rx.buf, rx.length, chunk), rx.length + |chunk|)
  }

  /** The result of a whole receive session: how it ended, what it did, the final buffer. */
  datatype Run = Run(end: Ending, trace: seq<Effect>, rx: Rx)

  /** `effects` happen first, then the rest of the session `r`. */
  function Then(effects: seq<Effect>, r: Run): Run
  {
    Run(r.end, effects + r.trace, r.rx)
  }
}
