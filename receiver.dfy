/**
  The receive loops as they run: a 1500-byte array `p` that `read` writes
  into at the fill count `length`, and print loops that walk it. Every method
  here is proved equal to the function of the same loop over values, so the
  properties proved of those functions hold of the loops.
 */
module Receive {
  import opened Wrappers
  import opened Telegram
  import opened Bus
  import opened Buffer
  import opened RawReceive
  import opened WindowedReceive
  import opened McipSession
  import opened SendFrame

  class Receiver {
    /** `uint8_t p[1500]` */
    const p: array<byte>
    /** `int length`, the number of bytes received into `p` */
    var length: nat

    ghost predicate Valid()
      reads this
    {
      p.Length == Capacity && length <= Capacity
    }

    /** The buffer and its fill count as a value. */
    ghost function State(): Rx
      reads this, p
    {
      Rx(p[..], length)
    }

    /** A buffer holding whatever the stack held, `junk`, and nothing received. */
    constructor (junk: seq<byte>)
      requires |junk| == Capacity
      ensures Valid() && fresh(p)
      ensures State() == Rx(junk, 0)
    {
      p := new byte[Capacity](i requires 0 <= i < Capacity => junk[i]);
      length := 0;
      new;
      assert p[..] == junk by {
        assert forall i :: 0 <= i < Capacity ==> p[..][i] == junk[i];
      }
    }

    /** `read(sock, p + length, 1500 - length)` delivering `chunk`, then `length += x`. */
    method Take(chunk: seq<byte>)
      requires Valid() && |chunk| <= Capacity - length
      modifies this, p
      ensures Valid()
      ensures State() == Append(old(State()), chunk)
    {
      var k := 0;
      while k < |chunk|
        invariant 0 <= k <= |chunk| && length == old(length)
        invariant forall j :: 0 <= j < Capacity ==>
          p[j] == if length <= j < length + k then chunk[j - length] else old(p[j])
      {
        p[length + k] := chunk[k];
        k := k + 1;
      }
      ghost var stored := Store(old(p[..]), length, chunk);
      assert p[..] == stored by {
        assert forall j :: 0 <= j < Capacity ==> p[..][j] == stored[j];
      }
      length := length + |chunk|;
    }

    /**
      A readable socket: `x = read(sock, p + length, 1500 - length)`, and
      `length += x` when x > 0.
     */
    method Receive(ev: Event) returns (x: int)
      requires Valid() && !ev.Timeout?
      modifies this, p
      ensures Valid()
      ensures x == ReadCount(ev, Room(old(State())))
      ensures State() == if x > 0 then Append(old(State()), ev.chunk[..x]) else old(State())
    {
      x := ReadCount(ev, Capacity - length);
      if x > 0 {
        Take(ev.chunk[..x]);
      }
    }

    /** The print loop of read_from_mcip: `p[i]` for every i below the fill count. */
    method PrintReceived() returns (w: seq<byte>)
      requires Valid()
      ensures w == p[..length]
    {
      w := [];
      var i := 0;
      while i < length
        invariant 0 <= i <= length && w == p[..i]
      {
        w := w + [p[i]];
        i := i + 1;
      }
    }

    /**
      The test at the end of a pass of read_from_mcip: once at least 5 bytes are
      in and the fill count has reached the declared length, print the
      received bytes and a newline.
     */
    method PrintIfComplete() returns (done: bool, out: seq<Effect>)
      requires Valid()
      ensures done <==> RawReady(State())
      ensures out == if done then [Print(p[..length] + [Newline])] else []
    {
      done := false;
      out := [];
      if length >= RawMinimum {
        if length >= Le16(p[LengthLo], p[LengthHi]) {
          var w := PrintReceived();
          out := [Print(w + [Newline])];
          done := true;
        }
      }
    }

    /**
      The print loop of the SMS and input loops: `p[i]` for i from 7 while
      `i < (p[3] | p[4] << 8) + 5`. Reaching index 1500 inside that loop is a
      read past the array, reported as `overrun`; otherwise the bytes are the window.
     */
    method PrintWindow() returns (w: seq<byte>, overrun: bool)
      requires Valid()
      ensures overrun <==> !WindowInBuffer(p[..])
      ensures !overrun ==> w == Window(p[..])
    {
      var end := Le16(p[LengthLo], p[LengthHi]) + WindowEndBias;
      assert end == WindowEnd(p[..]);
      w := [];
      overrun := false;
      var i := PayloadStart;
      while i < end
        invariant PayloadStart <= i <= Capacity
        invariant i <= end || i == PayloadStart
        invariant w == p[PayloadStart..i]
      {
        if i >= p.Length {
          overrun := true;
          return;
        }
        w := w + [p[i]];
        i := i + 1;
      }
    }

    /**
      The select and read step of the SMS and input loops: a positive read is
      appended; a read of 0 or -1 prints the failure, deregisters, frees the
      OID list and registers again with a fresh list holding `myOid`, which
      is registration number `k`, and empties the buffer. `count` is the number
      of registrations made after it.
     */
    method ReadOrReconnect(myOid: uint16, grant: nat -> bool, k: nat, ev: Event) returns (effects: seq<Effect>, registered: bool, count: nat)
      requires Valid()
      modifies this, p
      ensures Valid()
      ensures registered <==> !ReadFails(old(State()), ev) || grant(k)
      ensures count == if ReadFails(old(State()), ev) then k + 1 else k
      ensures !ReadFails(old(State()), ev) ==> effects == [] && State() == Received(old(State()), ev)
      ensures ReadFails(old(State()), ev) ==>
                && effects == Disconnect() + Connect(myOid) + (if grant(k) then [] else RegisterFailure())
                && State() == (if grant(k) then Rx(old(p[..]), 0) else old(State()))
    {
      effects := [];
      registered := true;
      count := k;
      if !ev.Timeout? {
        var x := Receive(ev);
        if x <= 0 {
          effects := Disconnect() + Connect(myOid);
          registered := grant(k);
          count := k + 1;
          if !registered {
            effects := effects + RegisterFailure();
            return;
          }
          length := 0;
        }
      }
    }

    /**
      The test at the end of a pass of the SMS loop: once more than 7 bytes are
      in, print the window of a complete telegram, and empty the buffer whether
      it was complete or not. A window past the array stops the model before
      the buffer is emptied.
     */
    method TestSms() returns (w: Option<seq<byte>>, overrun: bool)
      requires Valid()
      modifies this
      ensures Valid()
      ensures overrun <==> Shown(Sms, old(State())) && !WindowInBuffer(p[..])
      ensures w.Some? <==> Shown(Sms, old(State())) && WindowInBuffer(p[..])
      ensures w.Some? ==> w.value == Window(p[..])
      ensures length == if overrun || old(length) <= WindowThreshold then old(length) else 0
    {
      w := None;
      overrun := false;
      if length > WindowThreshold {
        if length >= Le16(p[LengthLo], p[LengthHi]) {
          var window;
          window, overrun := PrintWindow();
          if overrun {
            return;
          }
          w := Some(window);
        }
        length := 0;
      }
    }

    /**
      The test at the end of a pass of get_input: once more than 7 bytes are
      in and the telegram is complete, `print` becomes whether byte 11 holds
      the wanted tag, and the window is printed when it does; the buffer is
      emptied either way. `print` keeps its value when nothing was tested.
     */
    method TestEvent(pulses: bool, print0: bool) returns (print1: bool, w: Option<seq<byte>>, overrun: bool)
      requires Valid()
      modifies this
      ensures Valid()
      ensures print1 == if old(length) > WindowThreshold && Complete(p[..], old(length)) then Accept(pulses, p[EventOffset]) else print0
      ensures overrun <==> Shown(Events(pulses), old(State())) && !WindowInBuffer(p[..])
      ensures w.Some? <==> Shown(Events(pulses), old(State())) && WindowInBuffer(p[..])
      ensures w.Some? ==> w.value == Window(p[..])
      ensures length == if overrun || old(length) <= WindowThreshold then old(length) else 0
    {
      print1 := print0;
      w := None;
      overrun := false;
      if length > WindowThreshold {
        if length >= Le16(p[LengthLo], p[LengthHi]) {
          print1 := false;
          if !pulses && p[EventOffset] == InputEvent {
            print1 := true;
          } else if pulses && p[EventOffset] == PulseEvent {
            print1 := true;
          }
          if print1 {
            var window;
            window, overrun := PrintWindow();
            if overrun {
              return;
            }
            w := Some(window);
          }
        }
        length := 0;
      }
    }

    /**
      `read_from_mcip(sock, listen)`. Its `p` starts with what this buffer holds,
      and its fill count starts at 0. The result is always true.
     */
    method ReadFromMcip(listen: bool, script: seq<Event>) returns (ok: bool, stop: RawStop, out: seq<Effect>, rest: seq<Event>)
      requires Valid()
      modifies this, p
      ensures Valid() && ok
      ensures RawRun(stop, out, State(), rest) == ReadFromMcipSpec(listen, old(p[..]), script)
    {
      length := 0;
      ghost var goal := ReadFromMcipSpec(listen, p[..], script);
      var listening := listen;
      stop := NotListening;
      out := [];
      var idx := 0;
      while listening
        invariant Valid() && 0 <= idx <= |script|
        invariant listening ==> listen && out == [] && RawLoop(State(), script[idx..]) == goal
        invariant !listening ==> RawRun(stop, out, State(), script[idx..]) == goal
        decreases |script| - idx
      {
        if idx == |script| {
          stop := OutOfInput;
          rest := [];
          ok := true;
          return;
        }
        ghost var before := State();
        ghost var tail := script[idx..];
        var ev := script[idx];
        idx := idx + 1;
        assert tail[0] == ev && tail[1..] == script[idx..];
        if !ev.Timeout? {
          var x := Receive(ev);
          if x == -1 {
            stop := ReadBroke;
            break;
          }
        }
        assert State() == RawRead(before, ev);
        RawLoopPass(before, tail);
        var done, printed := PrintIfComplete();
        if done {
          out := printed;
          stop := Completed;
          listening := false;
        }
      }
      rest := script[idx..];
      ok := true;
    }

    /**
      One pass of the SMS loop, from `again = true` to the loop test: read or
      reconnect, then test. `stop` is how the session ends when it ends
      inside the pass; otherwise the loop goes on while `perma || again`.
     */
    method SmsPass(perma: bool, myOid: uint16, grant: nat -> bool, k: nat, ev: Event, ghost later: seq<Event>)
      returns (effects: seq<Effect>, count: nat, stop: Option<Ending>, again: bool)
      requires Valid() && length <= WindowThreshold
      modifies this, p
      ensures Valid() && (stop.None? ==> length <= WindowThreshold)
      ensures WindowedLoop(Sms, perma, myOid, grant, old(State()), k, [ev] + later)
           == if stop.Some? then Run(stop.value, effects, State())
              else if perma || again then Then(effects, WindowedLoop(Sms, perma, myOid, grant, State(), count, later))
              else Run(Exit(0), effects + Teardown(), State())
    {
      again := true;
      stop := None;
      ghost var before := State();
      ghost var script := [ev] + later;
      assert script[0] == ev && script[1..] == later;
      var registered;
      effects, registered, count := ReadOrReconnect(myOid, grant, k, ev);
      if !registered {
        stop := Some(Exit(-1));
        ReconnectAfterFailedRead(Sms, perma, myOid, grant, before, k, ev, later);
        return;
      }
      ReadStep(Sms, perma, myOid, grant, before, k, script, effects, State(), count);
      effects, stop, again := SmsTestPass(perma, myOid, grant, count, later, effects, WindowedLoop(Sms, perma, myOid, grant, before, k, script));
    }

    /**
      The test half of a pass of the SMS loop, after a read step that did
      `effects` and left the buffer as it is now, in a run that computes `goal`.
     */
    method SmsTestPass(perma: bool, ghost myOid: uint16, ghost grant: nat -> bool, ghost count: nat, ghost later: seq<Event>,
                       effects: seq<Effect>, ghost goal: Run)
      returns (effects': seq<Effect>, stop: Option<Ending>, again: bool)
      requires Valid() && goal == Then(effects, AfterRead(Sms, perma, myOid, grant, State(), count, later))
      modifies this
      ensures Valid() && (stop.None? ==> length <= WindowThreshold)
      ensures goal == if stop.Some? then Run(stop.value, effects', State())
                      else if perma || again then Then(effects', WindowedLoop(Sms, perma, myOid, grant, State(), count, later))
                      else Run(Exit(0), effects' + Teardown(), State())
    {
      ghost var next := State();
      AfterReadShape(Sms, perma, myOid, grant, next, count, later);
      again := true;
      stop := None;
      var shown := [];
      var w, overrun := TestSms();
      if overrun {
        stop := Some(Overrun);
        effects' := effects;
        assert effects + [] == effects;
        return;
      }
      if w.Some? {
        shown := [Print(w.value + [Newline])];
        again := false;
      }
      assert shown == ShownEffects(Sms, next);
      effects' := effects + shown;
      if perma || again {
        ThenThen(effects, shown, WindowedLoop(Sms, perma, myOid, grant, State(), count, later));
      } else {
        assert effects + (shown + Teardown()) == effects' + Teardown();
      }
    }

    /**
      The SMS listener from its first registration (`main_sms_tool` with
      `--listen`): registration `k` succeeds when `grant(k)`.
     */
    method ListenSms(perma: bool, myOid: uint16, grant: nat -> bool, script: seq<Event>) returns (end: Ending, trace: seq<Effect>)
      requires Valid()
      modifies this, p
      ensures Valid()
      ensures Run(end, trace, State()) == Windowed(Sms, perma, myOid, grant, old(p[..]), script)
    {
      length := 0;
      ghost var goal := Windowed(Sms, perma, myOid, grant, p[..], script);
      var registrations: nat := 0;
      trace := Connect(myOid);
      var registered := grant(registrations);
      registrations := registrations + 1;
      if !registered {
        trace := trace + RegisterFailure();
        end := Exit(-1);
        return;
      }
      var rest;
      end, rest := SmsLoop(perma, myOid, grant, registrations, script);
      trace := trace + rest;
    }

    /**
      The `do { ... } while (perma == true || again == true)` loop of the SMS
      listener, after `k` registrations.
     */
    method SmsLoop(perma: bool, myOid: uint16, grant: nat -> bool, k: nat, script: seq<Event>)
      returns (end: Ending, trace: seq<Effect>)
      requires Valid() && length <= WindowThreshold
      modifies this, p
      ensures Valid()
      ensures Run(end, trace, State()) == WindowedLoop(Sms, perma, myOid, grant, old(State()), k, script)
    {
      ghost var goal := WindowedLoop(Sms, perma, myOid, grant, State(), k, script);
      trace := [];
      var registrations := k;
      var idx := 0;
      var going := true;
      while going
        invariant Valid() && 0 <= idx <= |script| && length <= WindowThreshold
        invariant going ==> Then(trace, WindowedLoop(Sms, perma, myOid, grant, State(), registrations, script[idx..])) == goal
        invariant !going ==> Run(Exit(0), trace + Teardown(), State()) == goal
        decreases |script| - idx, going
      {
        if idx == |script| {
          end := Starved;
          return;
        }
        var ev := script[idx];
        idx := idx + 1;
        assert script[idx - 1..] == [ev] + script[idx..];
        var effects, stop, again;
        effects, registrations, stop, again := SmsPass(perma, myOid, grant, registrations, ev, script[idx..]);
        ghost var tr := trace;
        trace := trace + effects;
        if stop.Some? {
          end := stop.value;
          return;
        }
        going := perma || again;
        if going {
          ThenThen(tr, effects, WindowedLoop(Sms, perma, myOid, grant, State(), registrations, script[idx..]));
        } else {
          assert tr + (effects + Teardown()) == trace + Teardown();
        }
      }
      trace := trace + Teardown();
      end := Exit(0);
    }

    /**
      One pass of the get_input loop: read or reconnect, then test. `stop` is
      how the session ends when it ends inside the pass; otherwise the loop
      goes on while `perma || !print`.
     */
    method InputPass(pulses: bool, perma: bool, myOid: uint16, grant: nat -> bool, k: nat, ev: Event, ghost later: seq<Event>,
                     print0: bool)
      returns (effects: seq<Effect>, count: nat, stop: Option<Ending>, print1: bool)
      requires Valid() && length <= WindowThreshold && (!perma ==> !print0)
      modifies this, p
      ensures Valid() && (stop.None? ==> length <= WindowThreshold)
      ensures WindowedLoop(Events(pulses), perma, myOid, grant, old(State()), k, [ev] + later)
           == if stop.Some? then Run(stop.value, effects, State())
              else if perma || !print1 then Then(effects, WindowedLoop(Events(pulses), perma, myOid, grant, State(), count, later))
              else Run(Exit(0), effects + Teardown(), State())
    {
      stop := None;
      print1 := print0;
      ghost var before := State();
      ghost var script := [ev] + later;
      assert script[0] == ev && script[1..] == later;
      var registered;
      effects, registered, count := ReadOrReconnect(myOid, grant, k, ev);
      if !registered {
        stop := Some(Exit(-1));
        ReconnectAfterFailedRead(Events(pulses), perma, myOid, grant, before, k, ev, later);
        return;
      }
      ReadStep(Events(pulses), perma, myOid, grant, before, k, script, effects, State(), count);
      effects, stop, print1 := InputTestPass(pulses, perma, myOid, grant, count, later, print0, effects,
                                             WindowedLoop(Events(pulses), perma, myOid, grant, before, k, script));
    }

    /**
      The test half of a pass of the get_input loop, after a read step that did
      `effects` and left the buffer as it is now, in a run that computes `goal`.
     */
    method InputTestPass(pulses: bool, perma: bool, ghost myOid: uint16, ghost grant: nat -> bool, ghost count: nat,
                         ghost later: seq<Event>, print0: bool, effects: seq<Effect>, ghost goal: Run)
      returns (effects': seq<Effect>, stop: Option<Ending>, print1: bool)
      requires Valid() && (!perma ==> !print0)
      requires goal == Then(effects, AfterRead(Events(pulses), perma, myOid, grant, State(), count, later))
      modifies this
      ensures Valid() && (stop.None? ==> length <= WindowThreshold)
      ensures goal == if stop.Some? then Run(stop.value, effects', State())
                      else if perma || !print1 then Then(effects', WindowedLoop(Events(pulses), perma, myOid, grant, State(), count, later))
                      else Run(Exit(0), effects' + Teardown(), State())
    {
      ghost var next := State();
      AfterReadShape(Events(pulses), perma, myOid, grant, next, count, later);
      stop := None;
      var shown := [];
      var w, overrun;
      print1, w, overrun := TestEvent(pulses, print0);
      if overrun {
        stop := Some(Overrun);
        effects' := effects;
        assert effects + [] == effects;
        return;
      }
      if w.Some? {
        shown := [Print(w.value + [Newline])];
      }
      assert shown == ShownEffects(Events(pulses), next);
      effects' := effects + shown;
      if perma || !print1 {
        ThenThen(effects, shown, WindowedLoop(Events(pulses), perma, myOid, grant, State(), count, later));
      } else {
        assert effects + (shown + Teardown()) == effects' + Teardown();
      }
    }

    /**
      `get_input` from its first registration: prints input-change telegrams
      (tag 'i' at byte 11), or pulse telegrams (tag 'p') when `pulses`.
     */
    method GetInput(pulses: bool, perma: bool, myOid: uint16, grant: nat -> bool, script: seq<Event>) returns (end: Ending, trace: seq<Effect>)
      requires Valid()
      modifies this, p
      ensures Valid()
      ensures Run(end, trace, State()) == Windowed(Events(pulses), perma, myOid, grant, old(p[..]), script)
    {
      length := 0;
      ghost var goal := Windowed(Events(pulses), perma, myOid, grant, p[..], script);
      var registrations: nat := 0;
      trace := Connect(myOid);
      var registered := grant(registrations);
      registrations := registrations + 1;
      if !registered {
        trace := trace + RegisterFailure();
        end := Exit(-1);
        return;
      }
      var rest;
      end, rest := InputLoop(pulses, perma, myOid, grant, registrations, script);
      trace := trace + rest;
    }

    /**
      The `do { ... } while (perma == true || repeat == true)` loop of
      get_input, after `k` registrations.
     */
    method InputLoop(pulses: bool, perma: bool, myOid: uint16, grant: nat -> bool, k: nat, script: seq<Event>)
      returns (end: Ending, trace: seq<Effect>)
      requires Valid() && length <= WindowThreshold
      modifies this, p
      ensures Valid()
      ensures Run(end, trace, State()) == WindowedLoop(Events(pulses), perma, myOid, grant, old(State()), k, script)
    {
      ghost var goal := WindowedLoop(Events(pulses), perma, myOid, grant, State(), k, script);
      trace := [];
      var registrations := k;
      var show := false;
      var repeat := false;
      var idx := 0;
      var going := true;
      while going
        invariant Valid() && 0 <= idx <= |script| && length <= WindowThreshold
        invariant going ==> Then(trace, WindowedLoop(Events(pulses), perma, myOid, grant, State(), registrations, script[idx..])) == goal
        invariant !going ==> Run(Exit(0), trace + Teardown(), State()) == goal
        invariant going ==> perma || !show
        decreases |script| - idx, going
      {
        if idx == |script| {
          end := Starved;
          return;
        }
        var ev := script[idx];
        idx := idx + 1;
        assert script[idx - 1..] == [ev] + script[idx..];
        var effects, stop;
        effects, registrations, stop, show := InputPass(pulses, perma, myOid, grant, registrations, ev, script[idx..], show);
        ghost var tr := trace;
        trace := trace + effects;
        if stop.Some? {
          end := stop.value;
          return;
        }
        repeat := !perma && !show;
        going := perma || repeat;
        if going {
          ThenThen(tr, effects, WindowedLoop(Events(pulses), perma, myOid, grant, State(), registrations, script[idx..]));
        } else {
          assert tr + (effects + Teardown()) == trace + Teardown();
        }
      }
      trace := trace + Teardown();
      end := Exit(0);
    }

    /**
      `main_mcip_tool` after option parsing: register (the outcome is
      `registered`), send `send` if given (`mcip_send` returns 0 when
      `sendOk`), then call read_from_mcip once, or repeatedly when `perma`.
     */
    method McipTool(toOid: uint16, myOid: uint16, send: Option<seq<byte>>, sendOk: bool,
                    listen: bool, perma: bool, registered: bool, script: seq<Event>) returns (end: Ending, trace: seq<Effect>)
      requires Valid()
      modifies this, p
      ensures Valid()
      ensures Run(end, trace, State()) == ToolSession(toOid, myOid, send, sendOk, listen, perma, registered, old(State()), script)
    {
      ghost var goal := ToolSession(toOid, myOid, send, sendOk, listen, perma, registered, State(), script);
      trace := Connect(myOid);
      if !registered {
        trace := trace + RegisterFailure();
        end := Exit(-1);
        return;
      }
      if send.Some? {
        var s := EncodeFrame(toOid, myOid, send.value);
        trace := trace + [Send(s)];
        if !sendOk {
          trace := trace + [Report(SendFailed)];
        }
      }
      assert trace == Connect(myOid) + SendEffects(toOid, myOid, send, sendOk);
      var printed;
      end, printed := McipLoop(listen, perma, script);
      trace := trace + printed;
    }

    /**
      One `read_from_mcip` call of main_mcip_tool's loop, after `trace`, in a
      run that computes `goal`: how the loop goes on after it.
     */
    method McipCall(listen: bool, perma: bool, script: seq<Event>, trace: seq<Effect>, ghost goal: Run)
      returns (stop: RawStop, trace': seq<Effect>, rest: seq<Event>)
      requires Valid() && Then(trace, McipReads(listen, perma, p[..], script)) == goal
      modifies this, p
      ensures Valid()
      ensures stop == OutOfInput ==> Run(Starved, trace', State()) == goal
      ensures stop != OutOfInput && !perma ==> Run(Exit(0), trace' + Teardown(), State()) == goal
      ensures stop != OutOfInput && perma && !listen ==> Run(Spins, trace', State()) == goal
      ensures stop != OutOfInput && perma && listen ==>
                |rest| < |script| && Then(trace', McipReads(listen, perma, p[..], rest)) == goal
    {
      ghost var buf := p[..];
      // read_from_mcip always returns true, so its reconnect branch is not taken
      var ok, out;
      ok, stop, out, rest := ReadFromMcip(listen, script);
      ReadsStep(listen, perma, buf, script);
      trace' := trace + out;
      if stop != OutOfInput {
        if !perma {
          assert trace + (out + Teardown()) == trace' + Teardown();
        } else if !listen {
          assert trace' == trace + [];
        } else {
          ThenThen(trace, out, McipReads(listen, perma, p[..], rest));
        }
      }
    }

    /** The `do { read_from_mcip(sock, listen) } while (perma == true)` loop of main_mcip_tool. */
    method McipLoop(listen: bool, perma: bool, script: seq<Event>) returns (end: Ending, trace: seq<Effect>)
      requires Valid()
      modifies this, p
      ensures Valid()
      ensures Run(end, trace, State()) == McipReads(listen, perma, old(p[..]), script)
    {
      ghost var goal := McipReads(listen, perma, p[..], script);
      assert Then([], goal) == goal;
      trace := [];
      var rest := script;
      var going := true;
      while going
        invariant Valid()
        invariant going ==> Then(trace, McipReads(listen, perma, p[..], rest)) == goal
        invariant !going ==> Run(Exit(0), trace + Teardown(), State()) == goal
        decreases if going then |rest| + 1 else 0
      {
        var stop, rest';
        stop, trace, rest' := McipCall(listen, perma, rest, trace, goal);
        if stop == OutOfInput {
          end := Starved;
          return;
        }
        if perma && !listen {
          end := Spins;
          return;
        }
        going := perma;
        rest := rest';
      }
      trace := trace + Teardown();
      end := Exit(0);
    }
  }
}
