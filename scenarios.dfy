/**
  Concrete runs of the receive loops on small telegrams, over a buffer whose
  earlier contents are arbitrary.
 */
module Scenarios {
  import opened Telegram
  import opened Bus
  import opened Buffer
  import opened RawReceive
  import opened WindowedReceive

  /**
    A 12-byte telegram whose header carries 0x00, 0x0C in bytes 3 and 4, and
    then "hello".
   */
  function Hello(): seq<byte>
  {
    [0x02, 0x00, 0x03, 0x00, 0x0C, 0x00, 0x00, 0x68, 0x65, 0x6C, 0x6C, 0x6F]
  }

  /** The same telegram with its 16-bit length 12 stored little-endian in bytes 3 and 4. */
  function HelloLe(): seq<byte>
  {
    [0x02, 0x00, 0x03, 0x0C, 0x00, 0x00, 0x00, 0x68, 0x65, 0x6C, 0x6C, 0x6F]
  }

  /** A telegram's bytes delivered by two reads of 6 bytes each. */
  function InTwoReads(t: seq<byte>): seq<Event>
    requires |t| == 12
  {
    [Data(t[..6]), Data(t[6..])]
  }

  /** The bytes 0x00, 0x0C in bytes 3 and 4 declare 3072 bytes, not 12. */
  lemma HelloDeclares3072()
    ensures DeclaredLen(Hello()) == 3072
    ensures DeclaredLen(HelloLe()) == 12
  {
    assert Hello()[LengthLo] == 0x00 && Hello()[LengthHi] == 0x0C;
    assert HelloLe()[LengthLo] == 0x0C && HelloLe()[LengthHi] == 0x00;
  }

  /** The buffer after the two reads of a 12-byte telegram `t` into a buffer that held `buf`: `t`, then the old bytes from 12 on. */
  function TwoReads(buf: seq<byte>, t: seq<byte>): (b: seq<byte>)
    requires |buf| == Capacity && |t| == 12
    ensures |b| == Capacity
  {
    t + buf[12..]
  }

  /** The first read delivers 6 bytes into the empty buffer. */
  lemma FirstRead(buf: seq<byte>, t: seq<byte>)
    requires |buf| == Capacity && |t| == 12
    ensures !ReadFails(Rx(buf, 0), Data(t[..6]))
    ensures Received(Rx(buf, 0), Data(t[..6])) == Rx(Store(buf, 0, t[..6]), 6)
  {
    assert t[..6][..6] == t[..6];
  }

  /** The second read delivers the other 6, and the buffer then holds the telegram and the old bytes from 12 on. */
  lemma SecondRead(buf: seq<byte>, t: seq<byte>)
    requires |buf| == Capacity && |t| == 12
    ensures var rx1 := Rx(Store(buf, 0, t[..6]), 6);
            !ReadFails(rx1, Data(t[6..])) && Received(rx1, Data(t[6..])) == Rx(TwoReads(buf, t), 12)
  {
    var b1 := Store(buf, 0, t[..6]);
    var b := Store(b1, 6, t[6..]);
    assert t[6..][..6] == t[6..];
    forall i | 0 <= i < Capacity ensures b[i] == TwoReads(buf, t)[i] {
      if i < 12 {
        assert TwoReads(buf, t)[i] == t[i];
      } else {
        assert TwoReads(buf, t)[i] == buf[i];
      }
    }
    assert b == TwoReads(buf, t);
  }

  /**
    The byte stream of a 12-byte telegram in two reads of 6, when its declared
    length is more than 6: complete after the second read if the declared
    length is at most 12, otherwise still waiting.
   */
  lemma StreamTwoReads(t: seq<byte>)
    requires |t| == 12 && DeclaredLen(t) > 6
    ensures RawStream([], InTwoReads(t))
         == if DeclaredLen(t) <= 12 then StreamRun(Completed, t, []) else StreamRun(OutOfInput, [], [])
  {
    var script := InTwoReads(t);
    var first := t[..6];
    assert Feed([], script[0]) == first;
    assert first[LengthLo] == t[LengthLo] && first[LengthHi] == t[LengthHi];
    assert !StreamReady(first);
    assert Feed(first, script[1]) == t;
    var rest := script[1..];
    assert |rest| == 1 && rest[0] == script[1] && |rest[1..]| == 0;
    assert RawStream([], script) == RawStream(first, rest);
    assert RawStream(t, []) == StreamRun(OutOfInput, [], []);
  }

  /**
    read_from_mcip on `Hello()` in two reads: after 12 bytes the declared 3072
    are not in, so nothing is printed and the loop still waits.
   */
  lemma RawHelloNeverCompletes(buf: seq<byte>)
    requires |buf| == Capacity
    ensures var r := ReadFromMcipSpec(true, buf, InTwoReads(Hello()));
            r.stop == OutOfInput && r.out == []
  {
    var script := InTwoReads(Hello());
    var r := ReadFromMcipSpec(true, buf, script);
    assert r == RawLoop(Rx(buf, 0), script);
    RawLoopIsStream(Rx(buf, 0), script);
    assert buf[..0] == [];
    HelloDeclares3072();
    StreamTwoReads(Hello());
    assert RawStream(buf[..0], script).stop == OutOfInput;
    assert r.stop == OutOfInput;
    assert r.stop != Completed;
    assert r.out == [];
  }

  /** With the length stored little-endian, read_from_mcip prints the whole telegram after the second read. */
  lemma RawHelloLePrinted(buf: seq<byte>)
    requires |buf| == Capacity
    ensures var r := ReadFromMcipSpec(true, buf, InTwoReads(HelloLe()));
            r.stop == Completed && r.out == [Print(HelloLe() + [Newline])] && r.rest == []
  {
    var script := InTwoReads(HelloLe());
    var r := ReadFromMcipSpec(true, buf, script);
    assert r == RawLoop(Rx(buf, 0), script);
    RawLoopIsStream(Rx(buf, 0), script);
    assert buf[..0] == [];
    HelloDeclares3072();
    StreamTwoReads(HelloLe());
    assert RawStream(buf[..0], script) == StreamRun(Completed, HelloLe(), []);
  }

  /**
    The SMS listener on a 12-byte telegram in two reads of 6, when its
    declared length is more than 6: the test after 12 bytes drops an
    incomplete telegram and waits on; a complete one is printed as the window
    [7, declared + 5) of the buffer, and single-shot mode returns 0.
   */
  lemma SmsTwoReads(perma: bool, oid: uint16, grant: nat -> bool, buf: seq<byte>, t: seq<byte>)
    requires |buf| == Capacity && |t| == 12 && grant(0) && DeclaredLen(t) > 6
    ensures var r := Windowed(Sms, perma, oid, grant, buf, InTwoReads(t));
            var b := TwoReads(buf, t);
            && DeclaredLen(b) == DeclaredLen(t)
            && (DeclaredLen(t) > 12 ==> r == Run(Starved, Connect(oid), Rx(b, 0)))
            && (DeclaredLen(t) <= 12 && !perma ==>
                  r == Run(Exit(0), Connect(oid) + [Print(Window(b) + [Newline])] + Teardown(), Rx(b, 0)))
  {
    var script := InTwoReads(t);
    FirstRead(buf, t);
    SecondRead(buf, t);
    var rx1 := Rx(Store(buf, 0, t[..6]), 6);
    var b := TwoReads(buf, t);
    var rest := script[1..];
    assert |rest| == 1 && rest[0] == script[1] && |rest[1..]| == 0;
    assert DeclaredLen(b) == DeclaredLen(t);
    assert WindowedLoop(Sms, perma, oid, grant, Rx(buf, 0), 1, script) == AfterRead(Sms, perma, oid, grant, rx1, 1, rest);
    assert AfterRead(Sms, perma, oid, grant, rx1, 1, rest) == WindowedLoop(Sms, perma, oid, grant, rx1, 1, rest);
    assert WindowedLoop(Sms, perma, oid, grant, rx1, 1, rest) == AfterRead(Sms, perma, oid, grant, Rx(b, 12), 1, []);
  }

  /**
    The SMS listener on `Hello()` in two reads: the test after 12 bytes finds
    the telegram incomplete and drops it, and the listener waits on.
   */
  lemma SmsHelloDropped(perma: bool, oid: uint16, grant: nat -> bool, buf: seq<byte>)
    requires |buf| == Capacity && grant(0)
    ensures var r := Windowed(Sms, perma, oid, grant, buf, InTwoReads(Hello()));
            r.end == Starved && r.trace == Connect(oid) && r.rx.length == 0
  {
    HelloDeclares3072();
    SmsTwoReads(perma, oid, grant, buf, Hello());
  }

  /**
    The SMS listener in single-shot mode on `HelloLe()`: it prints the window
    [7, 17), which is "hello" and then the five bytes the buffer held at 12..16
    before, and returns 0.
   */
  lemma SmsHelloLeWindow(oid: uint16, grant: nat -> bool, buf: seq<byte>)
    requires |buf| == Capacity && grant(0)
    ensures var r := Windowed(Sms, false, oid, grant, buf, InTwoReads(HelloLe()));
            && r.end == Exit(0)
            && r.trace == Connect(oid) + [Print([0x68, 0x65, 0x6C, 0x6C, 0x6F] + buf[12..17] + [Newline])] + Teardown()
  {
    var t := HelloLe();
    HelloDeclares3072();
    SmsTwoReads(false, oid, grant, buf, t);
    TwelveByteWindow(buf, t);
    assert t[PayloadStart..] == [0x68, 0x65, 0x6C, 0x6C, 0x6F];
  }

  /**
    The window of a telegram that declares 12 bytes, after two reads: its
    bytes 7..11, then the five bytes at 12..16 that the buffer held before.
   */
  lemma TwelveByteWindow(buf: seq<byte>, t: seq<byte>)
    requires |buf| == Capacity && |t| == 12 && DeclaredLen(t) == 12
    ensures var b := TwoReads(buf, t);
            WindowInBuffer(b) && Window(b) == t[PayloadStart..] + buf[12..17]
  {
    var b := TwoReads(buf, t);
    assert b[LengthLo] == t[LengthLo] && b[LengthHi] == t[LengthHi];
    assert Window(b) == b[7..17];
    assert b[7..17] == t[7..] + buf[12..17];
  }

  /** A 1500-byte telegram declaring 1496 bytes, so that its window would end at index 1500. */
  function LongTelegram(): (t: seq<byte>)
    ensures |t| == Capacity
  {
    seq(Capacity, i => if i == LengthLo then 0xD8 else if i == LengthHi then 0x05 else 0x00)
  }

  /**
    The SMS listener reaches the read past the buffer: one read fills all
    1500 bytes with a telegram that declares 1496.
   */
  lemma SmsLongTelegramOverruns(perma: bool, oid: uint16, grant: nat -> bool, buf: seq<byte>)
    requires |buf| == Capacity && grant(0)
    ensures Windowed(Sms, perma, oid, grant, buf, [Data(LongTelegram())]).end == Overrun
  {
    var t := LongTelegram();
    var rx := Received(Rx(buf, 0), Data(t));
    assert rx.buf[LengthLo] == 0xD8 && rx.buf[LengthHi] == 0x05 && rx.length == Capacity;
    assert DeclaredLen(rx.buf) == 1496;
  }
}
