/**
  What the receive loops see of the operating system and of libmcip, and what
  they do to it. The socket is an event script with one entry per `select`:
  a timeout (or a select error, or the socket not ready), a read that returns
  data, or a read that fails. libmcip calls are recorded as effects in the
  order they are made, together with the program's printed output.
 */
module Bus {
  import opened Telegram

  /** What one pass of a receive loop gets from `select` and `read`. */
  datatype Event =
    | Timeout                    // select returned <= 0 or the socket was not ready
    | Data(chunk: seq<byte>)     // read returned these bytes (empty: read returned 0)
    | ReadError                  // read returned -1

  /**
    The value `read(sock, p + length, room)` returns for an event: -1 on error,
    otherwise the number of bytes delivered, which never exceeds the room asked
    for. A chunk longer than the room is cut to the room.
   */
  function ReadCount(ev: Event, room: nat): (x: int)
    requires !ev.Timeout?
    ensures -1 <= x <= room
    ensures x == -1 <==> ev.ReadError?
    ensures ev.Data? && x >= 0 ==> x <= |ev.chunk| && (x < room ==> x == |ev.chunk|)
  {
    match ev
    case ReadError => -1
    case Data(c) => if |c| < room then |c| else room
  }

  /** The messages the loops print on failure. */
  datatype Diagnostic = RegisterFailed | ReadFailed | SendFailed

  /** One observable action: printed output or a libmcip call. */
  datatype Effect =
    | Print(bytes: seq<byte>)      // printf of a telegram, newline included
    | Report(diagnostic: Diagnostic)
    | OidAppend(oid: uint16)       // mcip_oid_append(&my_oids, oid)
    | OidsDestroy                  // mcip_oids_destroy(my_oids)
    | Register                     // mcip_uds_register("/devices/mcip.socket", my_oids)
    | Deregister                   // mcip_uds_deregister(&sock)
    | Send(frame: seq<byte>)       // mcip_send(sock, MCIP_CMD_WRITE, |frame|, frame)

  /** How a run of a receive loop ends. */
  datatype Ending =
    | Exit(code: int)   // the function returns this value
    | Starved           // the script ran out while the loop still waits in select
    | Overrun           // the print loop would read past the 1500-byte buffer
    | Spins             // the loop repeats forever without reading

  /** Registering with a fresh OID list: append the OID, then register. */
  function Connect(oid: uint16): seq<Effect>
  {
    [OidAppend(oid), Register]
  }

  /** What follows a failed registration: the message and freeing the OID list. */
  function RegisterFailure(): seq<Effect>
  {
    [Report(RegisterFailed), OidsDestroy]
  }

  /** Tearing down after a failed read, before registering again. */
  function Disconnect(): seq<Effect>
  {
    [Report(ReadFailed), Deregister, OidsDestroy]
  }

  /** The normal end of a session: deregister, then free the OID list. */
  function Teardown(): seq<Effect>
  {
    [Deregister, OidsDestroy]
  }

  /** The number of telegrams printed in a trace. */
  function PrintCount(trace: seq<Effect>): nat
  {
    if trace == [] then 0
    else (if trace[0].Print? then 1 else 0) + PrintCount(trace[1..])
  }

  lemma {:induction false} PrintCountAppend(a: seq<Effect>, b: seq<Effect>)
    ensures PrintCount(a + b) == PrintCount(a) + PrintCount(b)
  {
    if a == [] {
      assert a + b == b;
    } else {
      assert (a + b)[1..] == a[1..] + b;
      PrintCountAppend(a[1..], b);
    }
  }

  /** A trace with no print in it counts 0 prints. */
  lemma {:induction false} NoPrints(trace: seq<Effect>)
    requires forall k :: 0 <= k < |trace| ==> !trace[k].Print?
    ensures PrintCount(trace) == 0
  {
    if trace != [] {
      NoPrints(trace[1..]);
    }
  }

  /** Every OID the trace appends to the OID list is `oid`. */
  predicate OnlyOid(trace: seq<Effect>, oid: uint16)
  {
    forall k :: 0 <= k < |trace| && trace[k].OidAppend? ==> trace[k].oid == oid
  }

  lemma {:induction false} OnlyOidAppend(a: seq<Effect>, b: seq<Effect>, oid: uint16)
    requires OnlyOid(a, oid) && OnlyOid(b, oid)
    ensures OnlyOid(a + b, oid)
  {
    forall k | 0 <= k < |a + b| && (a + b)[k].OidAppend? ensures (a + b)[k].oid == oid {
      if k >= |a| {
        assert (a + b)[k] == b[k - |a|];
      }
    }
  }
}
