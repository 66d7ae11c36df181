/**
  The receive loop of `read_from_mcip`: append every positive read, and once at
  least five bytes are in and the fill count has reached the declared length,
  print the whole buffer up to the fill count and stop listening. A read of 0
  bytes changes nothing; a read of -1 leaves the loop without printing.
 */
module RawReceive {
  import opened Telegram
  import opened Bus
  import opened Buffer

  /** Why read_from_mcip returned. */
  datatype RawStop =
    | NotListening   // called with listen == false: no select, no read
    | Completed      // a complete telegram was printed
    | ReadBroke      // read returned -1
    | OutOfInput     // the script ran out while the loop still waits

  /** The result of one call: the printed output, the buffer, and the unused script. */
  datatype RawRun = RawRun(stop: RawStop, out: seq<Effect>, rx: Rx, rest: seq<Event>)

  /** The read step: a timeout or a read of 0 bytes leaves the buffer as it is. */
  function RawRead(rx: Rx, ev: Event): (r: Rx)
    requires Wf(rx) && !ev.ReadError?
    ensures Wf(r)
  {
    if ev.Timeout? then rx
    else
      var x := ReadCount(ev, Room(rx));
      if x > 0 then Append(rx, ev.chunk[..x]) else rx
  }

  /** `length >= 5` and `length >= (p[3] | p[4] << 8)`. */
  predicate RawReady(rx: Rx): (ready: bool)
    requires Wf(rx)
    ensures ready <==> StreamReady(rx.buf[..rx.length])
  {
    assert rx.length >= RawMinimum ==>
      rx.buf[..rx.length][LengthLo] == rx.buf[LengthLo] && rx.buf[..rx.length][LengthHi] == rx.buf[LengthHi];
    rx.length >= RawMinimum && Complete(rx.buf, rx.length)
  }

  /** The `for(; listen == true; )` loop, one script entry per pass. */
  function RawLoop(rx: Rx, script: seq<Event>): (r: RawRun)
    requires Wf(rx)
    ensures Wf(r.rx)
    ensures r.stop != NotListening
    ensures r.stop == Completed ==> RawReady(r.rx)
    ensures r.out == if r.stop == Completed then [Print(r.rx.buf[..r.rx.length] + [Newline])] else []
    ensures script == [] ==> r.stop == OutOfInput && r.rest == []
    ensures script != [] ==> |r.rest| < |script| && r.rest == script[|script| - |r.rest|..]
    decreases |script|
  {
    if script == [] then RawRun(OutOfInput, [], rx, [])
    else if script[0].ReadError? then RawRun(ReadBroke, [], rx, script[1..])
    else
      var next := RawRead(rx, script[0]);
      if RawReady(next) then RawRun(Completed, [Print(next.buf[..next.length] + [Newline])], next, script[1..])
      else RawLoop(next, script[1..])
  }

  /** One pass of the loop that does not end in a failed read. */
  lemma RawLoopPass(rx: Rx, script: seq<Event>)
    requires Wf(rx) && script != [] && !script[0].ReadError?
    ensures var next := RawRead(rx, script[0]);
            RawLoop(rx, script) == if RawReady(next) then RawRun(Completed, [Print(next.buf[..next.length] + [Newline])], next, script[1..])
                                   else RawLoop(next, script[1..])
  {
  }

  /** read_from_mcip(sock, listen) on a stack buffer holding `buf`; it starts with length = 0. */
  function ReadFromMcipSpec(listen: bool, buf: seq<byte>, script: seq<Event>): (r: RawRun)
    requires |buf| == Capacity
    ensures Wf(r.rx)
    ensures r.stop == NotListening <==> !listen
    ensures !listen ==> r.out == [] && r.rx == Rx(buf, 0) && r.rest == script
    ensures r.out == if r.stop == Completed then [Print(r.rx.buf[..r.rx.length] + [Newline])] else []
  {
    if listen then RawLoop(Rx(buf, 0), script) else RawRun(NotListening, [], Rx(buf, 0), script)
  }

  // ---------------------------------------------------------------------------
  // An independent reference: the same loop on the received byte stream alone,
  // with no buffer and no stale bytes.

  /** The stream after one pass: a read appends what it delivered, at most the free room. */
  function Feed(acc: seq<byte>, ev: Event): (r: seq<byte>)
    requires |acc| <= Capacity
    ensures |acc| <= |r| <= Capacity && r[..|acc|] == acc
  {
    if ev.Data? then acc + ev.chunk[..ReadCount(ev, Capacity - |acc|)] else acc
  }

  /** The stream after several passes. */
  function Fed(acc: seq<byte>, evs: seq<Event>): (r: seq<byte>)
    requires |acc| <= Capacity
    ensures |acc| <= |r| <= Capacity
    decreases |evs|
  {
    if evs == [] then acc else Fed(Feed(acc, evs[0]), evs[1..])
  }

  /** A received stream holds a complete telegram: at least 5 bytes, and at least its declared length. */
  predicate StreamReady(acc: seq<byte>)
  {
    |acc| >= RawMinimum && |acc| >= DeclaredLen(acc)
  }

  datatype StreamRun = StreamRun(stop: RawStop, printed: seq<byte>, rest: seq<Event>)

  function RawStream(acc: seq<byte>, script: seq<Event>): StreamRun
    requires |acc| <= Capacity
    decreases |script|
  {
    if script == [] then StreamRun(OutOfInput, [], [])
    else if script[0].ReadError? then StreamRun(ReadBroke, [], script[1..])
    else
      var next := Feed(acc, script[0]);
      if StreamReady(next) then StreamRun(Completed, next, script[1..])
      else RawStream(next, script[1..])
  }

  /**
    The buffer loop is the stream loop: it stops for the same reason after the
    same entries, and what it prints is the received stream and a newline.
   */
  lemma {:induction false} RawLoopIsStream(rx: Rx, script: seq<Event>)
    requires Wf(rx)
    ensures var r := RawLoop(rx, script);
            var s := RawStream(rx.buf[..rx.length], script);
            && r.stop == s.stop && r.rest == s.rest
            && r.out == (if s.stop == Completed then [Print(s.printed + [Newline])] else [])
    decreases |script|
  {
    if script != [] && !script[0].ReadError? {
      var acc := rx.buf[..rx.length];
      var next := RawRead(rx, script[0]);
      assert next.buf[..next.length] == Feed(acc, script[0]);
      if next.length >= RawMinimum {
        assert next.buf[LengthLo] == next.buf[..next.length][LengthLo];
        assert next.buf[LengthHi] == next.buf[..next.length][LengthHi];
        assert RawReady(next) == StreamReady(next.buf[..next.length]);
      }
      if !RawReady(next) {
        RawLoopIsStream(next, script[1..]);
      }
    }
  }

  /** What read_from_mcip prints does not depend on the bytes the stack buffer held before. */
  lemma StaleBytesNeverPrinted(listen: bool, buf1: seq<byte>, buf2: seq<byte>, script: seq<Event>)
    requires |buf1| == Capacity && |buf2| == Capacity
    ensures var r1 := ReadFromMcipSpec(listen, buf1, script);
            var r2 := ReadFromMcipSpec(listen, buf2, script);
            r1.stop == r2.stop && r1.out == r2.out && r1.rest == r2.rest
  {
    if listen {
      RawLoopIsStream(Rx(buf1, 0), script);
      RawLoopIsStream(Rx(buf2, 0), script);
      assert buf1[..0] == buf2[..0];
    }
  }

  /**
    The stream loop prints exactly once, at the first pass after which the
    stream is complete: what it prints is everything received up to then, it
    is complete, its declared length fits in the buffer, no earlier pass saw a
    complete stream, and no read failed before.
   */
  lemma {:induction false} RawStreamFirstComplete(acc: seq<byte>, script: seq<Event>)
    requires |acc| <= Capacity
    ensures var s := RawStream(acc, script);
            var n := |script| - |s.rest|;
            s.stop == Completed ==>
              && 0 < n <= |script|
              && s.printed == Fed(acc, script[..n])
              && StreamReady(s.printed)
              && DeclaredLen(s.printed) <= |s.printed| <= Capacity
              && (forall k :: 0 < k < n ==> !StreamReady(Fed(acc, script[..k])))
              && (forall k :: 0 <= k < n ==> !script[k].ReadError?)
    decreases |script|
  {
    var s := RawStream(acc, script);
    if script != [] && !script[0].ReadError? {
      var next := Feed(acc, script[0]);
      var n := |script| - |s.rest|;
      if StreamReady(next) {
        assert s.rest == script[1..];
        assert script[..1][1..] == [];
        assert Fed(acc, script[..1]) == Fed(next, []);
      } else {
        RawStreamRest(next, script[1..]);
        RawStreamFirstComplete(next, script[1..]);
        var t := script[1..];
        if s.stop == Completed {
          assert s.printed == Fed(next, t[..n - 1]);
          assert script[..n][1..] == t[..n - 1];
          assert Fed(acc, script[..n]) == Fed(next, t[..n - 1]);
          forall k | 0 < k < n ensures !StreamReady(Fed(acc, script[..k])) {
            assert script[..k][1..] == t[..k - 1];
            assert Fed(acc, script[..k]) == Fed(next, t[..k - 1]);
            if k == 1 {
              assert t[..0] == [];
            }
          }
          forall k | 0 <= k < n ensures !script[k].ReadError? {
            if k > 0 {
              assert script[k] == t[k - 1];
            }
          }
        }
      }
    }
  }

  /** Feeding the first k events is feeding the first one, then the next k - 1. */
  lemma FedStep(acc: seq<byte>, script: seq<Event>, k: nat)
    requires |acc| <= Capacity && 0 < k <= |script|
    ensures Fed(acc, script[..k]) == Fed(Feed(acc, script[0]), script[1..][..k - 1])
  {
    forall i | 0 <= i < k - 1 ensures script[..k][1..][i] == script[1..][..k - 1][i] {
    }
    assert script[..k][1..] == script[1..][..k - 1];
  }

  /**
    A stream that is complete after the first k events, with no failed read
    among them, is printed, and the loop stops after at most k events.
   */
  lemma {:induction false} CompletePrefixIsPrinted(acc: seq<byte>, script: seq<Event>, k: nat)
    requires |acc| <= Capacity && 0 < k <= |script|
    requires forall i :: 0 <= i < k ==> !script[i].ReadError?
    requires StreamReady(Fed(acc, script[..k]))
    ensures var s := RawStream(acc, script);
            s.stop == Completed && |script| - |s.rest| <= k
    decreases k
  {
    var next := Feed(acc, script[0]);
    FedStep(acc, script, k);
    if k == 1 {
      assert script[1..][..0] == [];
    }
    if !StreamReady(next) {
      forall i | 0 <= i < k - 1 ensures !script[1..][i].ReadError? {
        assert script[1..][i] == script[i + 1];
      }
      CompletePrefixIsPrinted(next, script[1..], k - 1);
    }
  }

  /**
    A failed read at event j, with no failed read and no complete stream
    before it, ends the loop there with nothing printed.
   */
  lemma {:induction false} FailedReadEndsCall(acc: seq<byte>, script: seq<Event>, j: nat)
    requires |acc| <= Capacity && j < |script| && script[j].ReadError?
    requires forall i :: 0 <= i < j ==> !script[i].ReadError?
    requires forall k :: 0 < k <= j ==> !StreamReady(Fed(acc, script[..k]))
    ensures RawStream(acc, script) == StreamRun(ReadBroke, [], script[j + 1..])
    decreases j
  {
    if j > 0 {
      var next := Feed(acc, script[0]);
      FedStep(acc, script, 1);
      assert script[1..][..0] == [];
      assert !StreamReady(next);
      forall i | 0 <= i < j - 1 ensures !script[1..][i].ReadError? {
        assert script[1..][i] == script[i + 1];
      }
      forall k | 0 < k <= j - 1 ensures !StreamReady(Fed(next, script[1..][..k])) {
        FedStep(acc, script, k + 1);
        assert script[1..][..k + 1 - 1] == script[1..][..k];
      }
      FailedReadEndsCall(next, script[1..], j - 1);
      assert script[1..][j - 1 + 1..] == script[j + 1..];
    }
  }

  /**
    read_from_mcip with `listen`: once the bytes of the first k events form a
    complete telegram, with no failed read among them, the call prints it and
    returns after at most k events.
   */
  lemma CallPrintsCompleteTelegram(buf: seq<byte>, script: seq<Event>, k: nat)
    requires |buf| == Capacity && 0 < k <= |script|
    requires forall i :: 0 <= i < k ==> !script[i].ReadError?
    requires StreamReady(Fed([], script[..k]))
    ensures var r := ReadFromMcipSpec(true, buf, script);
            && r.stop == Completed && |script| - |r.rest| <= k
            && r.out == [Print(r.rx.buf[..r.rx.length] + [Newline])]
  {
    RawLoopIsStream(Rx(buf, 0), script);
    assert buf[..0] == [];
    CompletePrefixIsPrinted([], script, k);
  }

  /**
    read_from_mcip with `listen`: a read returning -1 at event j, before any
    failed read or complete telegram, ends the call after event j with
    nothing printed.
   */
  lemma CallEndsOnFailedRead(buf: seq<byte>, script: seq<Event>, j: nat)
    requires |buf| == Capacity && j < |script| && script[j].ReadError?
    requires forall i :: 0 <= i < j ==> !script[i].ReadError?
    requires forall k :: 0 < k <= j ==> !StreamReady(Fed([], script[..k]))
    ensures var r := ReadFromMcipSpec(true, buf, script);
            r.stop == ReadBroke && r.out == [] && r.rest == script[j + 1..]
  {
    RawLoopIsStream(Rx(buf, 0), script);
    assert buf[..0] == [];
    FailedReadEndsCall([], script, j);
  }

  /** The stream loop leaves an unused suffix of its script. */
  lemma {:induction false} RawStreamRest(acc: seq<byte>, script: seq<Event>)
    requires |acc| <= Capacity
    ensures var s := RawStream(acc, script);
            |s.rest| <= |script| && s.rest == script[|script| - |s.rest|..]
            && (script != [] ==> |s.rest| < |script|)
    decreases |script|
  {
    if script != [] && !script[0].ReadError? {
      var next := Feed(acc, script[0]);
      if !StreamReady(next) {
        RawStreamRest(next, script[1..]);
      }
    }
  }

  /**
    A telegram whose declared length exceeds the 1500-byte buffer is never
    printed: once its length field is in, the loop can only end by a failed
    read or by running out of input.
   */
  lemma {:induction false} OversizeNeverCompletes(acc: seq<byte>, script: seq<Event>)
    requires RawMinimum <= |acc| <= Capacity && DeclaredLen(acc) > Capacity
    ensures RawStream(acc, script).stop != Completed
    decreases |script|
  {
    if script != [] && !script[0].ReadError? {
      var next := Feed(acc, script[0]);
      assert next[LengthLo] == acc[LengthLo] && next[LengthHi] == acc[LengthHi] by {
        assert next[..|acc|] == acc;
      }
      OversizeNeverCompletes(next, script[1..]);
    }
  }
}
