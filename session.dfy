/**
  The normal mcip-tool operation (`main_mcip_tool` after option parsing):
  register, send the `--send` frame if one was given, then call
  read_from_mcip once, or again and again with `--permanently`. Because
  read_from_mcip returns true on every path, the reconnect branch behind a
  false result never runs, and the tool registers exactly once.
 */
module McipSession {
  import opened Wrappers
  import opened Telegram
  import opened Bus
  import opened Buffer
  import opened RawReceive
  import opened SendFrame

  /** What `--send` adds to the trace: the frame, and the message when mcip_send does not return 0. */
  function SendEffects(toOid: uint16, myOid: uint16, send: Option<seq<byte>>, sendOk: bool): (r: seq<Effect>)
    ensures send.None? ==> r == []
    ensures send.Some? ==> 1 <= |r| <= 2 && r[0] == Send(EncodeFrame(toOid, myOid, send.value))
    ensures send.Some? ==> (|r| == 2 <==> !sendOk) && (|r| == 2 ==> r[1] == Report(SendFailed))
  {
    match send
    case None => []
    case Some(text) => [Send(EncodeFrame(toOid, myOid, text))] + (if sendOk then [] else [Report(SendFailed)])
  }

  /**
    The `do { read_from_mcip(sock, listen) } while (perma == true)` loop, each
    call starting on the buffer the previous call left. Without `listen` a
    permanent loop repeats a call that does nothing, forever.
   */
  function McipReads(listen: bool, perma: bool, buf: seq<byte>, script: seq<Event>): (r: Run)
    requires |buf| == Capacity
    ensures Wf(r.rx)
    decreases |script|
  {
    var call := ReadFromMcipSpec(listen, buf, script);
    if call.stop == OutOfInput then Run(Starved, call.out, call.rx)
    else if !perma then Run(Exit(0), call.out + Teardown(), call.rx)
    else if !listen then Run(Spins, [], call.rx)
    else Then(call.out, McipReads(listen, perma, call.rx.buf, call.rest))
  }

  /** One call of the read loop and what follows it. */
  lemma ReadsStep(listen: bool, perma: bool, buf: seq<byte>, script: seq<Event>)
    requires |buf| == Capacity
    ensures var call := ReadFromMcipSpec(listen, buf, script);
            var r := McipReads(listen, perma, buf, script);
            && (call.stop == OutOfInput ==> r == Run(Starved, call.out, call.rx))
            && (call.stop != OutOfInput && !perma ==> r == Run(Exit(0), call.out + Teardown(), call.rx))
            && (call.stop != OutOfInput && perma && !listen ==> r == Run(Spins, [], call.rx) && call.out == [])
            && (call.stop != OutOfInput && perma && listen ==>
                  |call.rest| < |script| && r == Then(call.out, McipReads(listen, perma, call.rx.buf, call.rest)))
  {
  }

  /** The whole operation from the first registration, whose outcome is `registered`. */
  function ToolSession(toOid: uint16, myOid: uint16, send: Option<seq<byte>>, sendOk: bool,
                    listen: bool, perma: bool, registered: bool, rx: Rx, script: seq<Event>): (r: Run)
    requires Wf(rx)
    ensures Wf(r.rx)
    ensures |r.trace| >= 2 && r.trace[..2] == Connect(myOid)
    ensures !registered ==> r.end == Exit(-1) && r.trace == Connect(myOid) + RegisterFailure()
  {
    if !registered then Run(Exit(-1), Connect(myOid) + RegisterFailure(), rx)
    else Then(Connect(myOid) + SendEffects(toOid, myOid, send, sendOk), McipReads(listen, perma, rx.buf, script))
  }

  /** The trace holds no libmcip call and no message: only printed telegrams. */
  predicate OnlyPrints(trace: seq<Effect>)
  {
    forall k :: 0 <= k < |trace| ==> trace[k].Print?
  }

  /** The trace only prints and tears down: no registration and no failure message. */
  predicate Quiet(trace: seq<Effect>)
  {
    forall k :: 0 <= k < |trace| ==> trace[k].Print? || trace[k] == Deregister || trace[k] == OidsDestroy
  }

  /**
    The read loop never returns -1: it returns 0 only after its single call,
    spins only when permanent without `--listen`, and otherwise waits for
    input.
   */
  lemma {:induction false} ReadsEnding(listen: bool, perma: bool, buf: seq<byte>, script: seq<Event>)
    requires |buf| == Capacity
    ensures var r := McipReads(listen, perma, buf, script);
            && (r.end == Exit(0) || r.end == Starved || r.end == Spins)
            && (r.end == Exit(0) ==> !perma)
            && (r.end == Spins ==> perma && !listen)
    decreases |script|
  {
    var call := ReadFromMcipSpec(listen, buf, script);
    if call.stop != OutOfInput && perma && listen {
      ReadsEnding(listen, perma, call.rx.buf, call.rest);
    }
  }

  /** Everything the read loop does is printing, except the final deregistration after a single call. */
  lemma {:induction false} ReadsOnlyPrint(listen: bool, perma: bool, buf: seq<byte>, script: seq<Event>)
    requires |buf| == Capacity && perma
    ensures OnlyPrints(McipReads(listen, perma, buf, script).trace)
    decreases |script|
  {
    var call := ReadFromMcipSpec(listen, buf, script);
    assert OnlyPrints(call.out);
    if call.stop != OutOfInput && listen {
      var r := McipReads(listen, perma, buf, script);
      var r' := McipReads(listen, perma, call.rx.buf, call.rest);
      ReadsOnlyPrint(listen, perma, call.rx.buf, call.rest);
      assert r.trace == call.out + r'.trace;
      forall k | 0 <= k < |r.trace| ensures r.trace[k].Print? {
        if k >= |call.out| {
          assert r.trace[k] == r'.trace[k - |call.out|];
        }
      }
    }
  }

  /**
    A single call prints at most one telegram; when it returns 0 the printing
    comes first and deregistering and freeing the OID list last.
   */
  lemma SingleCall(listen: bool, buf: seq<byte>, script: seq<Event>)
    requires |buf| == Capacity
    ensures var r := McipReads(listen, false, buf, script);
            && PrintCount(r.trace) <= 1
            && (r.end == Exit(0) ==> |r.trace| >= 2 && r.trace[|r.trace| - 2..] == Teardown()
                                     && OnlyPrints(r.trace[..|r.trace| - 2]))
            && (r.end != Exit(0) ==> OnlyPrints(r.trace))
  {
    var call := ReadFromMcipSpec(listen, buf, script);
    var r := McipReads(listen, false, buf, script);
    AtMostOnePrint(call.out);
    if call.stop == OutOfInput {
      assert r == Run(Starved, call.out, call.rx);
    } else {
      assert r == Run(Exit(0), call.out + Teardown(), call.rx);
      PrintsThenTeardown(call.out);
    }
  }

  /** An output of at most one printed telegram counts at most one print. */
  lemma AtMostOnePrint(out: seq<Effect>)
    requires |out| <= 1 && OnlyPrints(out)
    ensures PrintCount(out) <= 1
  {
    if out != [] {
      assert out[1..] == [];
    }
  }

  /** Prints followed by the teardown: the teardown is the last two effects and adds no print. */
  lemma PrintsThenTeardown(out: seq<Effect>)
    requires OnlyPrints(out)
    ensures var t := out + Teardown();
            && PrintCount(t) == PrintCount(out)
            && |t| >= 2 && t[|t| - 2..] == Teardown() && OnlyPrints(t[..|t| - 2])
  {
    var t := out + Teardown();
    assert t[..|t| - 2] == out;
    PrintCountAppend(out, Teardown());
    NoPrints(Teardown());
  }

  lemma {:induction false} QuietAppend(a: seq<Effect>, b: seq<Effect>)
    requires Quiet(a) && Quiet(b)
    ensures Quiet(a + b)
  {
    forall k | 0 <= k < |a + b| ensures (a + b)[k].Print? || (a + b)[k] == Deregister || (a + b)[k] == OidsDestroy {
      if k >= |a| {
        assert (a + b)[k] == b[k - |a|];
      }
    }
  }

  /** The read loop only prints and tears down. */
  lemma ReadsQuiet(listen: bool, perma: bool, buf: seq<byte>, script: seq<Event>)
    requires |buf| == Capacity
    ensures Quiet(McipReads(listen, perma, buf, script).trace)
  {
    if perma {
      ReadsOnlyPrint(listen, perma, buf, script);
    } else {
      var call := ReadFromMcipSpec(listen, buf, script);
      assert Quiet(call.out);
      if call.stop != OutOfInput {
        QuietAppend(call.out, Teardown());
      }
    }
  }

  /** Neither a registration nor a failed read appears in the trace. */
  predicate NoReconnect(trace: seq<Effect>)
  {
    forall k :: 0 <= k < |trace| ==> trace[k] != Register && trace[k] != Report(ReadFailed)
  }

  lemma {:induction false} NoReconnectAppend(a: seq<Effect>, b: seq<Effect>)
    requires NoReconnect(a) && NoReconnect(b)
    ensures NoReconnect(a + b)
  {
    forall k | 0 <= k < |a + b| ensures (a + b)[k] != Register && (a + b)[k] != Report(ReadFailed) {
      if k >= |a| {
        assert (a + b)[k] == b[k - |a|];
      }
    }
  }

  lemma SendNeverReconnects(toOid: uint16, myOid: uint16, send: Option<seq<byte>>, sendOk: bool)
    ensures NoReconnect(SendEffects(toOid, myOid, send, sendOk))
  {
  }

  lemma QuietNoReconnect(trace: seq<Effect>)
    requires Quiet(trace)
    ensures NoReconnect(trace)
  {
  }

  /** What RegistersOnce needs of the read loop. */
  lemma ReadsStayQuiet(listen: bool, perma: bool, buf: seq<byte>, script: seq<Event>)
    requires |buf| == Capacity
    ensures var r := McipReads(listen, perma, buf, script);
            r.end != Exit(-1) && NoReconnect(r.trace)
  {
    ReadsEnding(listen, perma, buf, script);
    ReadsQuiet(listen, perma, buf, script);
    QuietNoReconnect(McipReads(listen, perma, buf, script).trace);
  }

  /**
    The operation returns -1 exactly when the first registration fails, and it
    registers exactly once: the second registration in the source is never
    reached.
   */
  lemma {:induction false} RegistersOnce(toOid: uint16, myOid: uint16, send: Option<seq<byte>>, sendOk: bool,
                      listen: bool, perma: bool, registered: bool, rx: Rx, script: seq<Event>)
    requires Wf(rx)
    ensures var r := ToolSession(toOid, myOid, send, sendOk, listen, perma, registered, rx, script);
            && (r.end == Exit(-1) <==> !registered)
            && |r.trace| >= 2 && r.trace[..2] == Connect(myOid)
            && NoReconnect(r.trace[2..])
  {
    var r := ToolSession(toOid, myOid, send, sendOk, listen, perma, registered, rx, script);
    if registered {
      var sent := SendEffects(toOid, myOid, send, sendOk);
      var r' := McipReads(listen, perma, rx.buf, script);
      ReadsStayQuiet(listen, perma, rx.buf, script);
      SendNeverReconnects(toOid, myOid, send, sendOk);
      ConnectedTrace(myOid, sent, r'.trace);
    } else {
      assert r.trace[2..] == RegisterFailure();
    }
  }

  /** A trace that registers, then neither reconnects nor registers again. */
  lemma ConnectedTrace(oid: uint16, a: seq<Effect>, b: seq<Effect>)
    requires NoReconnect(a) && NoReconnect(b)
    ensures var t := Connect(oid) + a + b;
            |t| >= 2 && t[..2] == Connect(oid) && NoReconnect(t[2..])
  {
    NoReconnectAppend(a, b);
    var t := Connect(oid) + a + b;
    assert t == Connect(oid) + (a + b);
    assert t[2..] == a + b;
  }

  /** With `--permanently` but without `--listen` the tool spins after registering and sending. */
  lemma PermanentWithoutListenSpins(toOid: uint16, myOid: uint16, send: Option<seq<byte>>, sendOk: bool,
                                    rx: Rx, script: seq<Event>)
    requires Wf(rx)
    ensures var r := ToolSession(toOid, myOid, send, sendOk, false, true, true, rx, script);
            r.end == Spins && r.trace == Connect(myOid) + SendEffects(toOid, myOid, send, sendOk)
  {
  }

  /** Without `--listen` and `--permanently` the tool registers, sends, deregisters and returns 0 without reading. */
  lemma SendOnlyReadsNothing(toOid: uint16, myOid: uint16, send: Option<seq<byte>>, sendOk: bool,
                             rx: Rx, script: seq<Event>)
    requires Wf(rx)
    ensures var r := ToolSession(toOid, myOid, send, sendOk, false, false, true, rx, script);
            r.end == Exit(0) && r.trace == Connect(myOid) + SendEffects(toOid, myOid, send, sendOk) + Teardown()
  {
  }
}
