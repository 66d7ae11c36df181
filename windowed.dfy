/**
  The receive loops of the SMS listener (`main_sms_tool`) and of `get_input`.
  Both append positive reads; a read of at most 0 bytes tears the connection
  down and registers again with a fresh OID list. Once more than 7 bytes are
  in they test the telegram, print the window [7, declared + 5) of a complete
  one that the mode admits, and set the fill count back to 0 whether or not it
  was complete. Single-shot runs stop after the first print; permanent runs
  go on.
 */
module WindowedReceive {
  import opened Telegram
  import opened Bus
  import opened Buffer

  /** The read step reconnects: `read` returned 0 or -1. */
  predicate ReadFails(rx: Rx, ev: Event): (fails: bool)
    requires Wf(rx)
    ensures rx.length < Capacity ==> (fails <==> ev.ReadError? || ev == Data([]))
  {
    !ev.Timeout? && ReadCount(ev, Room(rx)) <= 0
  }

  /** The buffer after a read step that did not fail. */
  function Received(rx: Rx, ev: Event): (r: Rx)
    requires Wf(rx) && !ReadFails(rx, ev)
    ensures Wf(r) && r.length >= rx.length
  {
    if ev.Timeout? then rx else Append(rx, ev.chunk[..ReadCount(ev, Room(rx))])
  }

  /** The telegram in the buffer is printed: it is complete and the mode admits it. */
  predicate Shown(mode: Mode, rx: Rx): (shown: bool)
    requires Wf(rx)
    ensures shown <==> && rx.length > WindowThreshold && DeclaredLen(rx.buf) <= rx.length
                       && (mode.Events? ==> rx.buf[EventOffset] == if mode.pulses then PulseEvent else InputEvent)
  {
    rx.length > WindowThreshold && Complete(rx.buf, rx.length) && Admits(mode, rx.buf)
  }

  /**
    The loop from the head of one pass. At every pass head the fill count is at
    most 7: it is 0 at the start, after a reconnect and after every test. `k`
    is the number of registrations made so far, `grant(k)` says whether the
    next one succeeds.
   */
  function WindowedLoop(mode: Mode, perma: bool, oid: uint16, grant: nat -> bool,
                        rx: Rx, k: nat, script: seq<Event>): (r: Run)
    requires Wf(rx) && rx.length <= WindowThreshold
    ensures Wf(r.rx)
    decreases |script|, 0
  {
    if script == [] then Run(Starved, [], rx)
    else if ReadFails(rx, script[0]) then
      var again := Disconnect() + Connect(oid);
      if !grant(k) then Run(Exit(-1), again + RegisterFailure(), rx)
      else Then(again, WindowedLoop(mode, perma, oid, grant, Rx(rx.buf, 0), k + 1, script[1..]))
    else AfterRead(mode, perma, oid, grant, Received(rx, script[0]), k, script[1..])
  }

  /** The buffer a pass leaves when its read did not fail and its window fits: the fill count is reset after a test. */
  function Tested(next: Rx): (r: Rx)
    requires Wf(next)
    ensures Wf(r) && r.length <= WindowThreshold && r.buf == next.buf
    ensures r.length == if next.length <= WindowThreshold then next.length else 0
  {
    if next.length <= WindowThreshold then next else Rx(next.buf, 0)
  }

  /**
    The rest of a pass after a read that did not fail left the buffer `next`:
    with more than 7 bytes in, test the telegram, print the window of a shown
    one, and set the fill count back to 0.
   */
  function AfterRead(mode: Mode, perma: bool, oid: uint16, grant: nat -> bool,
                     next: Rx, k: nat, later: seq<Event>): (r: Run)
    requires Wf(next)
    ensures Wf(r.rx)
    decreases |later|, 1
  {
    if !Shown(mode, next) then WindowedLoop(mode, perma, oid, grant, Tested(next), k, later)
    else if !WindowInBuffer(next.buf) then Run(Overrun, [], next)
    else
      var shown := [Print(Window(next.buf) + [Newline])];
      if perma then Then(shown, WindowedLoop(mode, perma, oid, grant, Tested(next), k, later))
      else Run(Exit(0), shown + Teardown(), Tested(next))
  }

  /** What a pass whose read did not fail prints. */
  function ShownEffects(mode: Mode, next: Rx): seq<Effect>
    requires Wf(next)
  {
    if Shown(mode, next) && WindowInBuffer(next.buf) then [Print(Window(next.buf) + [Newline])] else []
  }

  /** The rest of a pass in the terms the receive loops compute it: an overrun, or the printed effects and then going on or stopping. */
  lemma AfterReadShape(mode: Mode, perma: bool, oid: uint16, grant: nat -> bool,
                       next: Rx, k: nat, later: seq<Event>)
    requires Wf(next)
    ensures var shown := ShownEffects(mode, next);
            AfterRead(mode, perma, oid, grant, next, k, later)
            == if Shown(mode, next) && !WindowInBuffer(next.buf) then Run(Overrun, [], next)
               else if perma || shown == [] then Then(shown, WindowedLoop(mode, perma, oid, grant, Tested(next), k, later))
               else Run(Exit(0), shown + Teardown(), Tested(next))
  {
    if !Shown(mode, next) {
      var r' := WindowedLoop(mode, perma, oid, grant, Tested(next), k, later);
      assert [] + r'.trace == r'.trace;
    }
  }

  /** The read step of a pass, in the terms the receive loops compute it: its effects, the buffer it leaves, the registrations made. */
  lemma ReadStep(mode: Mode, perma: bool, oid: uint16, grant: nat -> bool, rx: Rx, k: nat, script: seq<Event>,
                 effects: seq<Effect>, next: Rx, count: nat)
    requires Wf(rx) && rx.length <= WindowThreshold && script != []
    requires ReadFails(rx, script[0]) ==>
               grant(k) && effects == Disconnect() + Connect(oid) && next == Rx(rx.buf, 0) && count == k + 1
    requires !ReadFails(rx, script[0]) ==> effects == [] && next == Received(rx, script[0]) && count == k
    ensures Wf(next)
    ensures WindowedLoop(mode, perma, oid, grant, rx, k, script)
         == Then(effects, AfterRead(mode, perma, oid, grant, next, count, script[1..]))
  {
    var r := AfterRead(mode, perma, oid, grant, next, count, script[1..]);
    if !ReadFails(rx, script[0]) {
      assert [] + r.trace == r.trace;
    }
  }

  /** Effects in two steps are the effects of both, in order. */
  lemma ThenThen(a: seq<Effect>, b: seq<Effect>, r: Run)
    ensures Then(a, Then(b, r)) == Then(a + b, r)
  {
    assert a + (b + r.trace) == (a + b) + r.trace;
  }

  /** A whole session: register once, then loop; a failed first registration returns -1. */
  function Windowed(mode: Mode, perma: bool, oid: uint16, grant: nat -> bool,
                    buf: seq<byte>, script: seq<Event>): (r: Run)
    requires |buf| == Capacity
    ensures Wf(r.rx)
    ensures |r.trace| >= 2 && r.trace[..2] == Connect(oid)
    ensures !grant(0) ==> r.end == Exit(-1) && r.trace == Connect(oid) + RegisterFailure()
  {
    if !grant(0) then Run(Exit(-1), Connect(oid) + RegisterFailure(), Rx(buf, 0))
    else Then(Connect(oid), WindowedLoop(mode, perma, oid, grant, Rx(buf, 0), 1, script))
  }

  // ---------------------------------------------------------------------------
  // Properties of the loop.

  /** A permanent session never returns 0: it ends only by a failed registration, an overrun, or not at all. */
  lemma {:induction false} PermanentNeverExits(mode: Mode, oid: uint16, grant: nat -> bool,
                                               rx: Rx, k: nat, script: seq<Event>)
    requires Wf(rx) && rx.length <= WindowThreshold
    ensures WindowedLoop(mode, true, oid, grant, rx, k, script).end != Exit(0)
    decreases |script|
  {
    if script != [] {
      if ReadFails(rx, script[0]) {
        if grant(k) {
          PermanentNeverExits(mode, oid, grant, Rx(rx.buf, 0), k + 1, script[1..]);
        }
      } else {
        var next := Received(rx, script[0]);
        if !Shown(mode, next) || WindowInBuffer(next.buf) {
          PermanentNeverExits(mode, oid, grant, Tested(next), k, script[1..]);
        }
      }
    }
  }

  /** The ending of a trace that returned 0: one printed telegram, then deregistering and freeing the OID list. */
  predicate EndsWithPrint(trace: seq<Effect>)
  {
    var n := |trace|;
    n >= 3 && trace[n - 3].Print? && trace[n - 2] == Deregister && trace[n - 1] == OidsDestroy
  }

  /** The ending of a trace that returned -1: a registration, the message, freeing the OID list. */
  predicate EndsWithRegisterFailure(trace: seq<Effect>)
  {
    var n := |trace|;
    n >= 3 && trace[n - 3] == Register && trace[n - 2] == Report(RegisterFailed) && trace[n - 1] == OidsDestroy
  }

  /** The last three effects of a trace stay the last ones when effects come before it. */
  lemma LastThreeKept(a: seq<Effect>, t: seq<Effect>)
    requires |t| >= 3
    ensures var u := a + t;
            u[|u| - 3] == t[|t| - 3] && u[|u| - 2] == t[|t| - 2] && u[|u| - 1] == t[|t| - 1]
  {
  }

  /**
    A session returns 0 only in single-shot mode, after printing exactly one
    telegram, and its last actions are that print, deregistering and freeing
    the OID list.
   */
  lemma {:induction false} SingleShotExitsAfterOnePrint(mode: Mode, perma: bool, oid: uint16, grant: nat -> bool,
                                                        rx: Rx, k: nat, script: seq<Event>)
    requires Wf(rx) && rx.length <= WindowThreshold
    ensures var r := WindowedLoop(mode, perma, oid, grant, rx, k, script);
            r.end == Exit(0) ==> !perma && PrintCount(r.trace) == 1 && EndsWithPrint(r.trace)
    decreases |script|, 0
  {
    if script != [] {
      if !ReadFails(rx, script[0]) {
        SingleShotAfterRead(mode, perma, oid, grant, Received(rx, script[0]), k, script[1..]);
      } else if grant(k) {
        var again := Disconnect() + Connect(oid);
        var r' := WindowedLoop(mode, perma, oid, grant, Rx(rx.buf, 0), k + 1, script[1..]);
        SingleShotExitsAfterOnePrint(mode, perma, oid, grant, Rx(rx.buf, 0), k + 1, script[1..]);
        if r'.end == Exit(0) {
          PrintCountAppend(again, r'.trace);
          NoPrints(again);
          LastThreeKept(again, r'.trace);
        }
      }
    }
  }

  /** SingleShotExitsAfterOnePrint for the rest of a pass. */
  lemma {:induction false} SingleShotAfterRead(mode: Mode, perma: bool, oid: uint16, grant: nat -> bool,
                                               next: Rx, k: nat, later: seq<Event>)
    requires Wf(next)
    ensures var r := AfterRead(mode, perma, oid, grant, next, k, later);
            r.end == Exit(0) ==> !perma && PrintCount(r.trace) == 1 && EndsWithPrint(r.trace)
    decreases |later|, 1
  {
    if !Shown(mode, next) {
      SingleShotExitsAfterOnePrint(mode, perma, oid, grant, Tested(next), k, later);
    } else if WindowInBuffer(next.buf) {
      var shown := [Print(Window(next.buf) + [Newline])];
      if perma {
        PermanentNeverExits(mode, oid, grant, Tested(next), k, later);
      } else {
        PrintCountAppend(shown, Teardown());
      }
    }
  }

  /** A session ends with 0 or -1 when it returns, and never spins. */
  lemma {:induction false} ExitCodes(mode: Mode, perma: bool, oid: uint16, grant: nat -> bool,
                                     rx: Rx, k: nat, script: seq<Event>)
    requires Wf(rx) && rx.length <= WindowThreshold
    ensures var r := WindowedLoop(mode, perma, oid, grant, rx, k, script);
            (r.end.Exit? ==> r.end.code == 0 || r.end.code == -1) && r.end != Spins
    decreases |script|
  {
    if script != [] {
      if ReadFails(rx, script[0]) {
        if grant(k) {
          ExitCodes(mode, perma, oid, grant, Rx(rx.buf, 0), k + 1, script[1..]);
        }
      } else {
        var next := Received(rx, script[0]);
        if !Shown(mode, next) || (WindowInBuffer(next.buf) && perma) {
          ExitCodes(mode, perma, oid, grant, Tested(next), k, script[1..]);
        }
      }
    }
  }

  /** A session that returns -1 does so right after a registration: the message, then freeing the OID list. */
  lemma {:induction false} FailureFollowsRegistration(mode: Mode, perma: bool, oid: uint16, grant: nat -> bool,
                                                      rx: Rx, k: nat, script: seq<Event>)
    requires Wf(rx) && rx.length <= WindowThreshold
    ensures var r := WindowedLoop(mode, perma, oid, grant, rx, k, script);
            r.end == Exit(-1) ==> EndsWithRegisterFailure(r.trace)
    decreases |script|, 0
  {
    if script != [] {
      if !ReadFails(rx, script[0]) {
        FailureAfterRead(mode, perma, oid, grant, Received(rx, script[0]), k, script[1..]);
      } else if grant(k) {
        var r' := WindowedLoop(mode, perma, oid, grant, Rx(rx.buf, 0), k + 1, script[1..]);
        FailureFollowsRegistration(mode, perma, oid, grant, Rx(rx.buf, 0), k + 1, script[1..]);
        if r'.end == Exit(-1) {
          LastThreeKept(Disconnect() + Connect(oid), r'.trace);
        }
      }
    }
  }

  /** FailureFollowsRegistration for the rest of a pass. */
  lemma {:induction false} FailureAfterRead(mode: Mode, perma: bool, oid: uint16, grant: nat -> bool,
                                            next: Rx, k: nat, later: seq<Event>)
    requires Wf(next)
    ensures var r := AfterRead(mode, perma, oid, grant, next, k, later);
            r.end == Exit(-1) ==> EndsWithRegisterFailure(r.trace)
    decreases |later|, 1
  {
    if !Shown(mode, next) {
      FailureFollowsRegistration(mode, perma, oid, grant, Tested(next), k, later);
    } else if WindowInBuffer(next.buf) && perma {
      var r' := WindowedLoop(mode, perma, oid, grant, Tested(next), k, later);
      FailureFollowsRegistration(mode, perma, oid, grant, Tested(next), k, later);
      if r'.end == Exit(-1) {
        LastThreeKept([Print(Window(next.buf) + [Newline])], r'.trace);
      }
    }
  }

  /** Every reconnect rebuilds the OID list from the same OID. */
  lemma {:induction false} OnlyOwnOid(mode: Mode, perma: bool, oid: uint16, grant: nat -> bool,
                                      rx: Rx, k: nat, script: seq<Event>)
    requires Wf(rx) && rx.length <= WindowThreshold
    ensures OnlyOid(WindowedLoop(mode, perma, oid, grant, rx, k, script).trace, oid)
    decreases |script|, 0
  {
    if script != [] {
      var again := Disconnect() + Connect(oid);
      if !ReadFails(rx, script[0]) {
        OnlyOwnOidAfterRead(mode, perma, oid, grant, Received(rx, script[0]), k, script[1..]);
      } else if grant(k) {
        OnlyOwnOid(mode, perma, oid, grant, Rx(rx.buf, 0), k + 1, script[1..]);
        OnlyOidAppend(again, WindowedLoop(mode, perma, oid, grant, Rx(rx.buf, 0), k + 1, script[1..]).trace, oid);
      } else {
        OnlyOidAppend(again, RegisterFailure(), oid);
      }
    }
  }

  /** OnlyOwnOid for the rest of a pass. */
  lemma {:induction false} OnlyOwnOidAfterRead(mode: Mode, perma: bool, oid: uint16, grant: nat -> bool,
                                               next: Rx, k: nat, later: seq<Event>)
    requires Wf(next)
    ensures OnlyOid(AfterRead(mode, perma, oid, grant, next, k, later).trace, oid)
    decreases |later|, 1
  {
    if !Shown(mode, next) {
      OnlyOwnOid(mode, perma, oid, grant, Tested(next), k, later);
    } else if WindowInBuffer(next.buf) {
      var shown := [Print(Window(next.buf) + [Newline])];
      if perma {
        OnlyOwnOid(mode, perma, oid, grant, Tested(next), k, later);
        OnlyOidAppend(shown, WindowedLoop(mode, perma, oid, grant, Tested(next), k, later).trace, oid);
      } else {
        OnlyOidAppend(shown, Teardown(), oid);
      }
    }
  }

  /**
    The loop reaches the read past the buffer only for a complete, admitted
    telegram whose declared length is at least 1496, so that the window
    [7, declared + 5) passes index 1499.
   */
  lemma {:induction false} OverrunNeedsLongTelegram(mode: Mode, perma: bool, oid: uint16, grant: nat -> bool,
                                                    rx: Rx, k: nat, script: seq<Event>)
    requires Wf(rx) && rx.length <= WindowThreshold
    ensures var r := WindowedLoop(mode, perma, oid, grant, rx, k, script);
            r.end == Overrun ==>
              Shown(mode, r.rx) && DeclaredLen(r.rx.buf) >= Capacity - WindowEndBias + 1 && r.rx.length >= DeclaredLen(r.rx.buf)
    decreases |script|
  {
    if script != [] {
      if ReadFails(rx, script[0]) {
        if grant(k) {
          OverrunNeedsLongTelegram(mode, perma, oid, grant, Rx(rx.buf, 0), k + 1, script[1..]);
        }
      } else {
        var next := Received(rx, script[0]);
        if !Shown(mode, next) || (WindowInBuffer(next.buf) && perma) {
          OverrunNeedsLongTelegram(mode, perma, oid, grant, Tested(next), k, script[1..]);
        }
      }
    }
  }

  /**
    Single-shot: once a pass prints a telegram, the session is over and no
    further script entry is consulted.
   */
  lemma AcceptedTelegramEndsSession(mode: Mode, oid: uint16, grant: nat -> bool, rx: Rx, k: nat,
                                    ev: Event, later1: seq<Event>, later2: seq<Event>)
    requires Wf(rx) && rx.length <= WindowThreshold
    requires !ReadFails(rx, ev) && Shown(mode, Received(rx, ev)) && WindowInBuffer(Received(rx, ev).buf)
    ensures var r := WindowedLoop(mode, false, oid, grant, rx, k, [ev] + later1);
            && r == WindowedLoop(mode, false, oid, grant, rx, k, [ev] + later2)
            && r.end == Exit(0)
            && r.trace == [Print(Window(Received(rx, ev).buf) + [Newline])] + Teardown()
  {
    assert ([ev] + later1)[0] == ev && ([ev] + later2)[0] == ev;
  }

  /**
    With `--permanently`, a shown telegram is printed and the loop goes on
    with the next entry from an empty buffer.
   */
  lemma AcceptedTelegramKeepsListening(mode: Mode, oid: uint16, grant: nat -> bool, rx: Rx, k: nat,
                                       ev: Event, later: seq<Event>)
    requires Wf(rx) && rx.length <= WindowThreshold
    requires !ReadFails(rx, ev) && Shown(mode, Received(rx, ev)) && WindowInBuffer(Received(rx, ev).buf)
    ensures WindowedLoop(mode, true, oid, grant, rx, k, [ev] + later)
         == Then([Print(Window(Received(rx, ev).buf) + [Newline])],
                 WindowedLoop(mode, true, oid, grant, Rx(Received(rx, ev).buf, 0), k, later))
  {
    assert ([ev] + later)[0] == ev && ([ev] + later)[1..] == later;
  }

  /**
    In either mode, a complete telegram the mode rejects, and a partial one
    that went past 7 bytes, are both dropped; the session goes on with the
    next entry from an empty buffer.
   */
  lemma RejectedTelegramKeepsPolling(mode: Mode, perma: bool, oid: uint16, grant: nat -> bool, rx: Rx, k: nat,
                                     ev: Event, later: seq<Event>)
    requires Wf(rx) && rx.length <= WindowThreshold
    requires !ReadFails(rx, ev) && Received(rx, ev).length > WindowThreshold && !Shown(mode, Received(rx, ev))
    ensures WindowedLoop(mode, perma, oid, grant, rx, k, [ev] + later)
         == WindowedLoop(mode, perma, oid, grant, Rx(Received(rx, ev).buf, 0), k, later)
  {
    assert ([ev] + later)[0] == ev && ([ev] + later)[1..] == later;
  }

  /**
    A failed read tears the connection down and registers again with the same
    OID; if that succeeds the loop resumes from an empty buffer, otherwise the
    session returns -1.
   */
  lemma ReconnectAfterFailedRead(mode: Mode, perma: bool, oid: uint16, grant: nat -> bool, rx: Rx, k: nat,
                                 ev: Event, later: seq<Event>)
    requires Wf(rx) && rx.length <= WindowThreshold && ReadFails(rx, ev)
    ensures var r := WindowedLoop(mode, perma, oid, grant, rx, k, [ev] + later);
            var again := [Report(ReadFailed), Deregister, OidsDestroy, OidAppend(oid), Register];
            if grant(k) then r == Then(again, WindowedLoop(mode, perma, oid, grant, Rx(rx.buf, 0), k + 1, later))
            else r == Run(Exit(-1), again + [Report(RegisterFailed), OidsDestroy], rx)
  {
    assert ([ev] + later)[0] == ev && ([ev] + later)[1..] == later;
  }
}
