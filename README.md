# mcip-tool receive loops and send frame, in Dafny

mcip-tool talks to the MCIP bus of a device over a Unix domain socket,
through libmcip. This project models the parts of `mcip-tool.c` that work on
bytes, and proves properties of them:

- the three loops that put telegrams back together from socket reads:
  - `read_from_mcip`, used by the plain tool;
  - the `--listen` branch of `main_sms_tool`;
  - `get_input`, which serves both input-change events and input pulses;
- the frame that `main_mcip_tool` hands to `mcip_send` for `--send`;
- the read loop of `main_mcip_tool`;
- the OID range checks of the option parsers.

Each loop keeps a 1500-byte buffer `p` and a fill count `length`. It appends
every positive read, and reads the telegram's declared length
`p[3] | p[4] << 8` to decide when the telegram is complete:

- `read_from_mcip` tests once 5 bytes are in. It prints the received bytes
  `p[0 .. length)` and then stops.
- The SMS and input loops test once more than 7 bytes are in. They print the
  window `p[7 .. declared + 5)` and empty the buffer after every test,
  whether the telegram was complete or not.
- `get_input` prints only telegrams whose byte 11 is `'i'` (input mode) or
  `'p'` (pulse mode).
- A read of at most 0 bytes in the SMS and input loops tears the connection
  down and registers again with the same OID.

The environment is a parameter, not something the model does:

- The socket is a script of events, one per `select`: a timeout, a read
  that delivers bytes, or a failed read.
- The outcome of the k-th registration is `grant(k)`.
- What the program does is a trace of effects, in order: printed telegrams,
  failure messages, and libmcip calls (append an OID, register, deregister,
  free the OID list, send).
- A run ends by returning 0 or -1, or with one of three endings the model
  adds:
  - `Starved`: the script ran out while the loop still waits;
  - `Overrun`: the print loop would read past the 1500-byte array;
  - `Spins`: `main_mcip_tool` with `--permanently` and without `--listen`
    repeats a call that reads nothing, forever.

The work is split in two layers:

- **Functions over values.** Each loop is a function over the buffer value
  (module `RawReceive`, `WindowedReceive`, `McipSession`). The properties of
  the loops are lemmas about these functions.
- **Imperative code.** Class `Receive.Receiver` holds `p` as an
  `array<byte>` and `length` as a field. Its methods run the loops as the C
  code does, and each is proved to compute the function of its loop.
  - `read_from_mcip`'s own buffer is a fresh stack array that starts with
    whatever the stack held. The model gives it the contents of the
    receiver's array, which are arbitrary, and sets `length` to 0.

Modules:

- `Telegram`: byte and 16-bit types, the header offsets and thresholds, the
  declared length, the window, the event filter.
- `Bus`: events, effects, and how a run ends.
- `Buffer`: the buffer as a value (`Rx`), and a run's result.
- `RawReceive`: `read_from_mcip`. It comes with an independent reference
  loop on the received byte stream alone, with no buffer and no stale bytes.
- `WindowedReceive`: the SMS and input loops, as one loop with a mode.
- `McipSession`: `main_mcip_tool` after option parsing.
- `SendFrame`: the `--send` frame and a decoder for it.
- `OidOptions`: the `--my-oid` / `--to-oid` range checks.
- `Scenarios`: concrete runs on small telegrams.
- `Receive`: the class.

## Byte order of the declared length

The loops read the declared length from bytes 3 and 4 as
`p[3] | p[4] << 8`, low byte first:

- A 12-byte telegram whose header is `02 00 03 00 0C 00 00` declares 3072
  bytes, not 12 (`Scenarios.HelloDeclares3072`).
  - `read_from_mcip` never prints it after its 12 bytes arrive in two reads
    of 6 (`Scenarios.RawHelloNeverCompletes`).
  - The SMS listener tests it after 12 bytes, finds it incomplete, drops it
    and waits on (`Scenarios.SmsHelloDropped`).
- The same telegram with header `02 00 03 0C 00 00 00` declares 12.
  - `read_from_mcip` prints the whole telegram after the second read
    (`Scenarios.RawHelloLePrinted`).
  - The SMS listener prints the window `p[7 .. 17)`. That window is "hello"
    followed by five bytes left in the buffer from before
    (`Scenarios.SmsHelloLeWindow`).

## Model

| member | source | states |
|---|---|---|
| Telegram.BytesOfLe16 | mcip-tool.c:54 | decoding two bytes as `lo \| hi << 8` and splitting the value into its low and high bytes gives back the same two bytes |
| Telegram.Le16OfBytes | mcip-tool.c:916-917 | splitting a 16-bit value into `v & 0xFF` and `(v & 0xFF00) >> 8` and decoding little-endian gives back the value |
| Telegram.DeclaredLen | mcip-tool.c:54 | the declared length read from bytes 3 and 4 is below 65536 |
| Telegram.Window | mcip-tool.c:688-690 | the printed window has declared - 2 bytes (none when declared <= 2), and its k-th byte is `p[7 + k]` |
| Telegram.WindowBounds | mcip-tool.c:684-690 | for a complete telegram of more than 7 bytes: the window is empty iff declared <= 2; it ends at most 5 bytes past the received data; it goes past the data iff declared > length - 5; it fits in the 1500-byte buffer iff declared <= 1495 |
| Telegram.Accept | mcip-tool.c:795-802 | the filter accepts exactly tag 'p' in pulse mode and exactly tag 'i' in input mode |
| Telegram.FiltersAreExclusive | mcip-tool.c:796-802 | an 'i' telegram passes only the input filter, a 'p' telegram only the pulse filter, and no tag passes both |
| Bus.ReadCount | mcip-tool.c:37 | `read` returns -1 exactly on error, and otherwise at most the room asked for, which is all of the chunk when the chunk is shorter than the room |
| Buffer.Store | mcip-tool.c:37 | writing a chunk at the fill count changes exactly the bytes it covers |
| Buffer.Append | mcip-tool.c:37-41 | after a positive read the fill count grows by the bytes read, the received prefix gains the chunk, the bytes after it are unchanged, and the bound `length <= 1500` holds |
| SendFrame.EncodeFrame | mcip-tool.c:914-931 | the frame is `to_oid` low byte then high byte, then `my_oid` in the same way unless it is 0, then the text; its length is `strlen + 2` or `strlen + 4` |
| SendFrame.DecodeFrame | mcip-tool.c:916-926 | a frame is refused exactly when it is shorter than its header; otherwise bytes 0-1 give the destination OID, bytes 2-3 the source OID when the frame carries one (0 when it does not), and the text is exactly the bytes after the header |
| SendFrame.FrameRoundTrip | mcip-tool.c:914-931 | decoding a sent frame recovers the destination OID, the source OID (0 when none was sent) and the text |
| SendFrame.FrameRoundTripBack | mcip-tool.c:914-931 | encoding what was decoded gives the frame back whenever the source OID read agrees with the header size |
| OidOptions.ToUint16 | mcip-tool.c:328 | storing an int in a `uint16_t` keeps it modulo 65536 |
| OidOptions.CheckOidAsWritten | mcip-tool.c:328-331 | as written, an argument is accepted iff its value modulo 65536 lies in [lo, 65534], and the stored OID is that value modulo 65536 |
| OidOptions.MyOidAsWritten | mcip-tool.c:328-331 | `--my-oid` is accepted iff the argument modulo 65536 lies in 2..65534, and the OID stored is that value |
| OidOptions.ToOidAsWritten | mcip-tool.c:339-342 | `--to-oid` is accepted iff the argument modulo 65536 lies in 1..65534, and the OID stored is that value |
| OidOptions.TruncatedOidAccepted | mcip-tool.c:339-342 | `--my-oid 65538` and `--my-oid -65534` are accepted as OID 2, and `--to-oid 65537` as OID 1 |
| OidOptions.CheckOid | mcip-tool.c:389-392 | as the message describes it, an argument is accepted iff it lies in [lo, 65534], and then it is stored unchanged |
| OidOptions.ChecksAgreeInRange | mcip-tool.c:463-466 | both checks agree on every argument in 0..65535, and where they differ the written check accepts what the intended one refuses |
| RawReceive.RawRead | mcip-tool.c:37-47 | a pass of `read_from_mcip` keeps `0 <= length <= 1500` |
| RawReceive.RawReady | mcip-tool.c:52-54 | the buffer test of `read_from_mcip` (at least 5 bytes, and at least the declared length) holds exactly when the received bytes alone form a complete telegram |
| RawReceive.RawLoop | mcip-tool.c:28-64 | the loop never ends as not listening; it stops as completed only on a complete telegram of at least 5 bytes, printing exactly `p[0 .. length)` and a newline, and prints nothing otherwise; it consumes at least one event, and what is left is a suffix of the script |
| RawReceive.ReadFromMcipSpec | mcip-tool.c:16-67 | without `listen` the call reads nothing, prints nothing and leaves the buffer empty; with it the call never stops as not listening; it prints `p[0 .. length)` and a newline exactly when it completed, and keeps `0 <= length <= 1500` |
| RawReceive.Feed | mcip-tool.c:37-41 | a read adds at most the free room to the received stream and keeps what was there |
| RawReceive.Fed | mcip-tool.c:37-41 | the received stream never exceeds 1500 bytes |
| RawReceive.RawLoopIsStream | mcip-tool.c:16-67 | the buffer loop and the stream loop stop for the same reason after the same events, and what the buffer loop prints is the received stream and a newline |
| RawReceive.StaleBytesNeverPrinted | mcip-tool.c:24-58 | how `read_from_mcip` stops, what it prints and what it leaves unread do not depend on what the stack buffer held before |
| RawReceive.RawStreamFirstComplete | mcip-tool.c:52-61 | when the stream loop prints, it does so at the pass after which the stream is first complete, prints everything received so far, the declared length fits in the buffer, and no earlier pass saw a complete stream or a failed read |
| RawReceive.CompletePrefixIsPrinted | mcip-tool.c:37-61 | conversely, if the first k reads bring a complete stream and none of them fails, the stream loop prints and stops within those k events |
| RawReceive.FailedReadEndsCall | mcip-tool.c:42-44 | a read returning -1 that comes before any complete stream ends the stream loop right after it, with nothing printed |
| RawReceive.CallPrintsCompleteTelegram | mcip-tool.c:16-67 | `read_from_mcip` with `listen`: if the first k reads bring a complete telegram and none fails, the call prints `p[0 .. length)` and a newline and returns within k events |
| RawReceive.CallEndsOnFailedRead | mcip-tool.c:42-44 | `read_from_mcip` with `listen`: a read returning -1 before any complete telegram ends the call after that event, with nothing printed |
| RawReceive.RawStreamRest | mcip-tool.c:28-64 | the stream loop leaves a suffix of its script, shorter than the script when the script is not empty |
| RawReceive.OversizeNeverCompletes | mcip-tool.c:52-54 | once a telegram declaring more than 1500 bytes has its length field in, `read_from_mcip` never prints it |
| WindowedReceive.Received | mcip-tool.c:656-660 | a read that did not fail keeps `0 <= length <= 1500` and never shrinks the fill count |
| WindowedReceive.ReadFails | mcip-tool.c:657-661 | with room left in the buffer, a read takes the reconnect branch exactly when it returns -1 or delivers no bytes |
| WindowedReceive.Shown | mcip-tool.c:788-802 | a telegram is printed exactly when more than 7 bytes are in, the fill count has reached the declared length, and, in the input loop, byte 11 is 'p' in pulse mode or 'i' in input mode |
| WindowedReceive.WindowedLoop | mcip-tool.c:647-698 | every state the SMS and input loops reach keeps `0 <= length <= 1500` |
| WindowedReceive.Tested | mcip-tool.c:684-695 | after a pass the buffer bytes are unchanged and the fill count is 0 if more than 7 bytes were in, otherwise unchanged; so it is at most 7 at every pass head |
| WindowedReceive.AfterRead | mcip-tool.c:683-698 | the test half of a pass keeps `0 <= length <= 1500` |
| WindowedReceive.Windowed | mcip-tool.c:632-643 | a session starts by appending the OID and registering; a failed first registration returns -1 after the message and freeing the OID list |
| WindowedReceive.PermanentNeverExits | mcip-tool.c:698 | with `--permanently` the loop never returns 0 |
| WindowedReceive.SingleShotExitsAfterOnePrint | mcip-tool.c:684-707 | a loop that returns 0 is single-shot, printed exactly one telegram, and ends with that print, deregistering and freeing the OID list |
| WindowedReceive.SingleShotAfterRead | mcip-tool.c:684-707 | the same property for the test half of a pass |
| WindowedReceive.ExitCodes | mcip-tool.c:632-707 | a loop that returns gives 0 or -1, and never spins |
| WindowedReceive.FailureFollowsRegistration | mcip-tool.c:672-677 | a loop that returns -1 ends with a registration, the failure message and freeing the OID list |
| WindowedReceive.FailureAfterRead | mcip-tool.c:672-677 | the same property for the test half of a pass |
| WindowedReceive.OnlyOwnOid | mcip-tool.c:668-672 | every OID list the loop builds holds the tool's own OID |
| WindowedReceive.OnlyOwnOidAfterRead | mcip-tool.c:668-672 | the same property for the test half of a pass |
| WindowedReceive.OverrunNeedsLongTelegram | mcip-tool.c:688-690 | the print loop reads past the array only for a complete, admitted telegram that declares at least 1496 bytes |
| WindowedReceive.AcceptedTelegramEndsSession | mcip-tool.c:692-698 | single-shot: the first shown telegram ends the session with its window printed and a teardown, whatever the rest of the script holds |
| WindowedReceive.AcceptedTelegramKeepsListening | mcip-tool.c:692-698 | with `--permanently`: a shown telegram has its window printed and the loop goes on with the next event from an empty buffer |
| WindowedReceive.RejectedTelegramKeepsPolling | mcip-tool.c:815-823 | with or without `--permanently`: a complete telegram the filter rejects, or an incomplete one past 7 bytes, is dropped and the loop goes on from an empty buffer |
| WindowedReceive.ReconnectAfterFailedRead | mcip-tool.c:766-784 | a failed read gives exactly the failure message, deregister, free, append the same OID and register; then the loop goes on from an empty buffer, or returns -1 after the failure message and freeing the list |
| McipSession.McipReads | mcip-tool.c:936-957 | the read loop of `main_mcip_tool` keeps `0 <= length <= 1500` |
| McipSession.SendEffects | mcip-tool.c:913-931 | without `--send` nothing is sent; with it exactly one frame, the encoded one, is sent, followed by the failure message exactly when `mcip_send` did not return 0 |
| McipSession.ToolSession | mcip-tool.c:902-934 | the operation starts by appending the OID and registering; a failed registration returns -1 after the message and freeing the OID list |
| McipSession.ReadsEnding | mcip-tool.c:936-966 | the read loop never returns -1; it returns 0 only without `--permanently`, and spins only with `--permanently` and without `--listen` |
| McipSession.ReadsOnlyPrint | mcip-tool.c:937-957 | with `--permanently` the read loop only prints |
| McipSession.SingleCall | mcip-tool.c:936-966 | without `--permanently` the read loop (`McipReads`) prints at most one telegram; when it returns 0 the last two effects are deregistering and freeing the OID list, and everything before them is printing |
| McipSession.PrintsThenTeardown | mcip-tool.c:959-963 | printing followed by the teardown counts the same prints, and ends with deregistering and freeing the OID list |
| McipSession.ReadsQuiet | mcip-tool.c:936-966 | the read loop only prints, deregisters and frees the OID list |
| McipSession.SendNeverReconnects | mcip-tool.c:913-934 | sending neither registers nor reports a failed read |
| McipSession.ReadsStayQuiet | mcip-tool.c:938-955 | the read loop never returns -1 and never reconnects: the branch for a false result of `read_from_mcip` is never taken |
| McipSession.RegistersOnce | mcip-tool.c:902-966 | the operation returns -1 iff the first registration fails; it begins by appending the OID and registering, and never registers or reports a failed read again |
| McipSession.PermanentWithoutListenSpins | mcip-tool.c:936-957 | with `--permanently` and without `--listen` the tool registers, sends, and then spins with nothing more in the trace |
| McipSession.SendOnlyReadsNothing | mcip-tool.c:902-966 | without `--listen` and `--permanently` the tool registers, sends, deregisters, frees the OID list and returns 0 |
| Receive.Receiver.constructor | mcip-tool.c:24 | the buffer starts with arbitrary contents, and nothing is received |
| Receive.Receiver.Take | mcip-tool.c:37-40 | writing the delivered bytes into `p` at the fill count and adding their number to it gives the value-level `Append` |
| Receive.Receiver.Receive | mcip-tool.c:37-41 | `read` returns the modelled count, and only a positive count is appended to the buffer |
| Receive.Receiver.PrintReceived | mcip-tool.c:56-58 | the print loop of `read_from_mcip` emits exactly `p[0 .. length)` |
| Receive.Receiver.PrintIfComplete | mcip-tool.c:52-63 | it prints iff at least 5 bytes are in and the telegram is complete, and then it prints `p[0 .. length)` and a newline |
| Receive.Receiver.PrintWindow | mcip-tool.c:688-690 | the print loop from index 7 reaches index 1500 iff the window leaves the buffer, and otherwise emits exactly the window |
| Receive.Receiver.ReadOrReconnect | mcip-tool.c:653-681 | a read that does not fail appends its bytes and does nothing else; a failed one gives the reconnect effects, and empties the buffer if registration succeeds or stops on failure |
| Receive.Receiver.TestSms | mcip-tool.c:683-695 | a window is printed iff more than 7 bytes are in and the telegram is complete and fits; the buffer is emptied after every test |
| Receive.Receiver.TestEvent | mcip-tool.c:788-813 | `print` becomes the filter's verdict on a complete telegram, and keeps its value when nothing was tested; the window is printed iff the telegram is shown and fits; the buffer is emptied after every test |
| Receive.Receiver.ReadFromMcip | mcip-tool.c:16-67 | the imperative `read_from_mcip` returns true and computes exactly `ReadFromMcipSpec`: the same stop, output, buffer and unread events |
| Receive.Receiver.SmsPass | mcip-tool.c:647-698 | one pass of the SMS loop is one step of `WindowedLoop`: it ends the session, goes on, or returns 0 exactly as the function does |
| Receive.Receiver.SmsTestPass | mcip-tool.c:683-698 | the test half of an SMS pass computes `AfterRead` |
| Receive.Receiver.ListenSms | mcip-tool.c:632-705 | the imperative SMS listener computes exactly the `Windowed` run in SMS mode |
| Receive.Receiver.SmsLoop | mcip-tool.c:645-698 | the SMS `do ... while (perma \|\| again)` loop computes exactly `WindowedLoop` in SMS mode |
| Receive.Receiver.InputPass | mcip-tool.c:753-822 | one pass of the get_input loop is one step of `WindowedLoop` in event mode, with `print` deciding whether it repeats |
| Receive.Receiver.InputTestPass | mcip-tool.c:788-822 | the test half of a get_input pass computes `AfterRead` in event mode |
| Receive.Receiver.GetInput | mcip-tool.c:739-832 | the imperative `get_input` computes exactly the `Windowed` run in event mode |
| Receive.Receiver.InputLoop | mcip-tool.c:750-823 | the `do ... while (perma \|\| repeat)` loop of get_input computes exactly `WindowedLoop` in event mode |
| Receive.Receiver.McipTool | mcip-tool.c:902-966 | the imperative `main_mcip_tool` after option parsing computes exactly `ToolSession` |
| Receive.Receiver.McipCall | mcip-tool.c:937-956 | one call of `read_from_mcip` in the loop is one step of `McipReads` |
| Receive.Receiver.McipLoop | mcip-tool.c:936-957 | the `do ... while (perma == true)` loop computes exactly `McipReads` |
| Scenarios.HelloDeclares3072 | mcip-tool.c:54 | header bytes 3-4 of `00 0C` declare 3072 bytes, and `0C 00` declare 12 |
| Scenarios.FirstRead | mcip-tool.c:37-40 | the first read of 6 bytes into an empty buffer succeeds and fills 6 bytes |
| Scenarios.SecondRead | mcip-tool.c:37-40 | the second read of 6 bytes makes the buffer the telegram followed by the old bytes from index 12 on |
| Scenarios.StreamTwoReads | mcip-tool.c:37-62 | a 12-byte telegram in two reads whose declared length is more than 6 is printed after the second read if it declares at most 12 bytes, and is otherwise still awaited |
| Scenarios.RawHelloNeverCompletes | mcip-tool.c:52-62 | `read_from_mcip` prints nothing for the length bytes `00 0C` after the 12 bytes arrive, and still waits |
| Scenarios.RawHelloLePrinted | mcip-tool.c:52-62 | with the length bytes `0C 00`, `read_from_mcip` prints the whole 12-byte telegram after the second read |
| Scenarios.SmsTwoReads | mcip-tool.c:683-698 | the SMS listener on a 12-byte telegram in two reads drops it when it declares more than 12 bytes, and otherwise single-shot prints the window and returns 0 |
| Scenarios.SmsHelloDropped | mcip-tool.c:684-694 | the SMS listener drops the telegram with length bytes `00 0C` and waits on from an empty buffer |
| Scenarios.SmsHelloLeWindow | mcip-tool.c:688-690 | the SMS listener prints "hello" and then the five stale buffer bytes 12..16, and returns 0 |
| Scenarios.TwelveByteWindow | mcip-tool.c:688-690 | a telegram that declares 12 bytes has a window of its bytes 7..11 followed by the old buffer bytes 12..16 |
| Scenarios.SmsLongTelegramOverruns | mcip-tool.c:688-690 | a single read of a 1500-byte telegram declaring 1496 bytes makes the SMS listener read past the array |

## Left out

- `select`, `read`, `sleep(1)` and the 10-second timeout are operating system
  I/O. They are replaced by the event script:
  - a timeout, a `select` error and a socket that is not ready are all one
    `Timeout` event;
  - a chunk longer than the room asked for is cut to the room, because
    `read` never returns more than asked.
- libmcip calls are not modelled as code. `mcip_oid_append`,
  `mcip_uds_register`, `mcip_uds_deregister`, `mcip_oids_destroy` and
  `mcip_send` are recorded as effects. Registration outcomes come from
  `grant`, and `mcip_send`'s outcome from `sendOk`.
- The OID list kept in `my_oids` is not modelled. After a reconnect the
  source frees `my_oids` and appends to it again without setting it back to
  NULL. Whether that builds a fresh list depends on libmcip, which is not
  part of this model. The model records the calls, and the lemma
  `WindowedReceive.OnlyOwnOid` is about the OIDs appended.
- `printf` is modelled as the bytes emitted, one `Print` effect per telegram,
  newline included.
- The CLI-channel code is not modelled: `send_sms`, `switch_output`,
  `init_cli`, `main_cli_cmd`, `main_container` and `set_output`. It formats
  commands with `sprintf` for the m3_cli library, which is not part of this
  model.
- Option parsing is not modelled: the `getopt_long` loops, the `usage_*`
  text, and program-name dispatch in `main`.
  - The range checks of `--my-oid` and `--to-oid` are modelled in
    `OidOptions`. Its members cite one copy each; the same `--my-oid` check
    appears at mcip-tool.c:328-331, 389-392 and 463-466.
  - `atoi` is taken as already giving an int. Arguments outside the range
    of `int` are not modelled.
- Telegram.Le16: the bit operations `p[3] | p[4] << 8` (mcip-tool.c:54) and
  the masks `& 0x00FF`, `(& 0xFF00) >> 8` (mcip-tool.c:915-917, 924-926)
  are written as the integer sum, remainder and quotient they compute for
  bytes and 16-bit values; that equality is not itself proved here.
- SendFrame.EncodeFrame: takes `text` as the bytes of the `--send` argument
  before its terminating NUL, and does not itself refuse a text that holds
  byte 0, which a C string cannot.
- The `calloc(1, 2 + 2 + strlen(send))` buffer is not modelled; only the
  logical frame is. With a source OID, `strcat` writes the terminating NUL
  one byte past that allocation.
- Reading past `p[1499]` in the window print loop of the SMS and input loops
  is undefined behaviour in C. The model stops the run there with the
  ending `Overrun` and does not guess what would be printed.
- The run that would go on forever is not modelled as such:
  - with `--permanently`, or while waiting, the model stops when the script
    runs out (`Starved`);
  - `main_mcip_tool` with `--permanently` and without `--listen` calls
    `read_from_mcip` forever without reading; the model stops with `Spins`.
- The reconnect branch of `main_mcip_tool` (mcip-tool.c:938-955) is not
  modelled; `McipSession.McipReads` has no case for it.
  - The fact that it is dead is `Receive.Receiver.ReadFromMcip`'s
    `ensures ok`, proved from the method's body: every exit of the loop
    returns true, as at mcip-tool.c:66.
  - `McipSession.ReadsStayQuiet` and `McipSession.RegistersOnce` then state
    what follows for the trace: no second registration and no read-failure
    message.
- `read_from_mcip` starts each call with a fresh stack buffer. The model
  reuses the receiver's array, whose contents are arbitrary, which is the
  same thing. `RawReceive.StaleBytesNeverPrinted` then shows the earlier
  contents never matter.

## Findings

| source | as written | input that shows it | evidently intended | confidence | as-written member | corrected member |
|---|---|---|---|---|---|---|
| mcip-tool.c:328-331 | `atoi(pArg)` is stored into a `uint16_t` before the range check, so the check sees the argument modulo 65536 | `--my-oid 65538` is accepted as OID 2; `--to-oid 65537` (mcip-tool.c:339-342) is accepted as OID 1 | an argument outside 2 to 65534 (1 to 65534 for `--to-oid`) is rejected, as the message says | not executed | OidOptions.TruncatedOidAccepted | OidOptions.CheckOid |
