/**
  The frame mcip-tool hands to `mcip_send` for `--send text`: the destination
  OID in two little-endian bytes, then the tool's own OID in two more when one
  was given (my_oid != 0), then the text.
 */
module SendFrame {
  import opened Wrappers
  import opened Telegram

  /** Bytes before the text: the destination OID, and the source OID unless it is 0. */
  function HeaderSize(myOid: uint16): nat
  {
    if myOid == 0 then 2 else 4
  }

  /**
    The first `strlen(send) + 2` (my_oid == 0) or `strlen(send) + 4` bytes of
    the buffer `s`, which is the length passed to mcip_send. `text` is the
    argument's bytes up to its terminating NUL.
   */
  function EncodeFrame(toOid: uint16, myOid: uint16, text: seq<byte>): (f: seq<byte>)
    ensures |f| == |text| + HeaderSize(myOid)
    ensures f[0] == Low(toOid) && f[1] == High(toOid)
    ensures myOid != 0 ==> f[2] == Low(myOid) && f[3] == High(myOid)
    ensures f[HeaderSize(myOid)..] == text
  {
    var head := [Low(toOid), High(toOid)];
    if myOid == 0 then head + text else head + [Low(myOid), High(myOid)] + text
  }

  /** What a receiver reads back from a frame. */
  datatype Addressed = Addressed(toOid: uint16, myOid: uint16, text: seq<byte>)

  /**
    Reads a frame back, given whether it carries a source OID; a frame shorter
    than its header is refused. Without a source OID the source reads as 0.
   */
  function DecodeFrame(f: seq<byte>, withSource: bool): (r: Option<Addressed>)
    ensures r.Some? <==> |f| >= (if withSource then 4 else 2)
    ensures r.Some? ==> Low(r.value.toOid) == f[0] && High(r.value.toOid) == f[1]
    ensures r.Some? ==> r.value.text == f[(if withSource then 4 else 2)..]
    ensures r.Some? && withSource ==> Low(r.value.myOid) == f[2] && High(r.value.myOid) == f[3]
    ensures r.Some? && !withSource ==> r.value.myOid == 0
  {
    if withSource then
      if |f| < 4 then None else Some(Addressed(Le16(f[0], f[1]), Le16(f[2], f[3]), f[4..]))
    else
      if |f| < 2 then None else Some(Addressed(Le16(f[0], f[1]), 0, f[2..]))
  }

  /** Decoding a sent frame recovers both OIDs and the text. */
  lemma FrameRoundTrip(toOid: uint16, myOid: uint16, text: seq<byte>)
    ensures DecodeFrame(EncodeFrame(toOid, myOid, text), myOid != 0) == Some(Addressed(toOid, myOid, text))
  {
    var f := EncodeFrame(toOid, myOid, text);
    Le16OfBytes(toOid);
    if myOid != 0 {
      Le16OfBytes(myOid);
    }
  }

  /** Encoding what was decoded gives the frame back, whenever the source OID read is non-zero. */
  lemma FrameRoundTripBack(f: seq<byte>, withSource: bool)
    requires DecodeFrame(f, withSource).Some?
    requires withSource <==> DecodeFrame(f, withSource).value.myOid != 0
    ensures var a := DecodeFrame(f, withSource).value; EncodeFrame(a.toOid, a.myOid, a.text) == f
  {
    var a := DecodeFrame(f, withSource).value;
    var g := EncodeFrame(a.toOid, a.myOid, a.text);
    assert |g| == |f|;
    forall k | 0 <= k < |f| ensures g[k] == f[k] {
      if k >= HeaderSize(a.myOid) {
        assert g[k] == g[HeaderSize(a.myOid)..][k - HeaderSize(a.myOid)];
      }
    }
  }
}
