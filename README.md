# PingSerial session state machine in Dafny

PingSerial is a non-blocking Arduino driver for the US-100 ultrasonic
sensor. The sensor sits on a half-duplex serial line. The caller asks for a
distance (opcode `0x55`) or a temperature (opcode `0x50`). It then calls
`data_available()` on every pass of its loop until the bit for that kind shows
up, and fetches the value once with `get_distance()` / `get_temperature()`.
Only one request may be outstanding at a time. A request made while another is
outstanding is queued, and a later poll sends it once the line is idle and
empty. If an answer has the wrong length, or does not arrive within 99 ms, the
driver discards what it received and sends the same request again.

This project models that state machine and proves what it promises:

- `protocol.dfy` (module `Protocol`) holds the wire format and the pure
  arithmetic. It has the opcodes, the big-endian distance decode and its
  encode partner, the saturating clamp, the −45 temperature offset, the
  timeout counter that never wraps to 0, and the result bitmask.
- `session.dfy` (module `Session`) is the driver's whole state as a value,
  `State`. It has every member field of the class, plus the serial receive
  buffer `rx` and the log `tx` of bytes written. It also gives the reference
  transition of each entry point. `Poll` is split into the three steps of
  `data_available`: deferred send, response handling, timeout.
- `session_properties.dfy` (module `SessionProperties`) proves the
  properties of each entry point about those transitions.
- `trace.dfy` (module `Trace`) covers arbitrary runs: any sequence of calls
  with bytes arriving in between. It proves by induction that the invariant
  holds after every run. In particular, at most one transaction is ever
  pending.
- `driver.dfy` (module `Driver`) is the class `PingSerial`. Its fields are
  the original's member variables, and its methods update them in place step
  by step as the original does. `read(count)` keeps its discarding `for`
  loop. Every method of the class except `Init` and `Read` is proved to leave `Snapshot()`
  equal to the matching `Session` transition of `old(Snapshot())`, and to
  keep `Valid()`. `Init` is proved equal to `Session.Configure` but makes no
  claim about `Valid()`, because the constructor calls it while the timeout
  is still 0. `Read` is stated directly on the receive buffer: it drops the
  first `count` bytes. The client methods at the end verify five scenarios
  against these contracts. These are a 500 mm answer, a 2000 mm answer that
  saturates, a temperature timeout, a queued temperature behind a distance,
  and a repeated distance request.

Facts about the code that the model makes explicit:

- A kind can be pending and available at once. A new request does not touch
  the available flag, so an unread result and a new pending request of the
  same kind coexist (`Driver.RepeatedDistanceClient`).
- A second request for a kind whose answer is still outstanding is not
  ignored. It writes nothing at once, but it sets the queued flag, and a
  later poll sends it as a second transaction
  (`SessionProperties.RepeatedRequest`, `Driver.RepeatedDistanceClient`).
- A queued flag is not confined to the time something is pending. It
  survives until the first poll that finds the line idle and empty.
- Poll does not drain bytes that arrive while nothing is pending. As long as
  they stay in the buffer, poll changes nothing at all, so a queued request
  waits for as long as they stay
  (`SessionProperties.PollIdleWithUnreadBytes`). A direct request still goes
  out, because it does not look at the buffer. The stray bytes are then
  taken as part of the answer, discarded as an oversized answer, or
  discarded on timeout. A single stray byte becomes the high byte of the
  next distance (`SessionProperties.StaleByteJoinsDistanceAnswer`).
- The remark at PingSerial.h:83 that a request is not sent right after an
  answer was received holds only for queued requests. A direct request is
  sent at once whenever nothing is pending, even on the call right after an
  answer was consumed (`SessionProperties.RequestWhileIdle`).
- The byte count read from the port is stored in a `byte`. The model keeps
  this truncation: `Session.AvailableCount` is `|rx| % 256`. The "discard
  everything" paths therefore drop `|rx| % 256` bytes, which is all of them
  whenever fewer than 256 are waiting.

The clock is a `now: nat` argument of each entry point that reads it. Bytes
from the sensor arrive between calls, by appending to `rx`.

## Model

| member | source | states |
|---|---|---|
| Protocol.Opcode | PingSerial.cpp:257-269 | a distance request is the byte 0x55 and a temperature request the byte 0x50, and the two differ |
| Protocol.DecodeDistance | PingSerial.cpp:163 | the two answer bytes as a big-endian value; its properties are the two round-trip lemmas below and its use in SessionProperties.PollDistanceResponse |
| Protocol.DecodeEncodeDistance | PingSerial.cpp:163 | a distance the sensor sends high byte first is decoded as that same distance |
| Protocol.EncodeDecodeDistance | PingSerial.h:112 | every two-byte answer is the big-endian encoding of its decoded value (0..65535), so decoding loses nothing |
| Protocol.Clamp | PingSerial.cpp:166-170 | the stored distance is 0, UINT16_MAX or inside [min, max]; a value in range is kept, one above max becomes UINT16_MAX, one below min (with min <= max) becomes 0 |
| Protocol.DecodeTemperature | PingSerial.cpp:182 | the temperature is the byte less 45, so it lies in −45..210, and no range check is applied |
| Protocol.NextTimeoutCount | PingSerial.cpp:192-195 | after a timeout the uint16 counter is never 0: it is one more, or 1 when it wraps from 65535 |
| Protocol.Max | PingSerial.cpp:162 | the maximum operation duration is at least both the old maximum and the new duration, and equal to one of them |
| Protocol.AvailableMask | PingSerial.cpp:218-226 | the result has bit 0x1 exactly when a distance is available, bit 0x2 exactly when a temperature is, no other bit, and so is at most 3 |
| Session.Configure | PingSerial.cpp:30-40 | Init stores the two bounds ordered (min <= max, the same two values whichever way round they were given), sets the timeout to 99 ms and changes nothing else |
| Session.AvailableCount | PingSerial.cpp:121-129 | the byte count seen by the driver never exceeds the bytes waiting and equals it below 256 |
| Session.Initial | PingSerial.h:106-129 | the member initialisers before the constructor body; SessionProperties.ConstructedSession states the state they lead to |
| Session.Request | PingSerial.cpp:251-273 | request_distance / request_temperature; SessionProperties.RequestWhileBusy, RequestWhileIdle, RepeatedRequest and RequestPreservesInv state its effects |
| Session.DeferredSend | PingSerial.cpp:139-147 | the deferred-send step of the poll; SessionProperties.DeferredSendStep, PollSendsQueued and PollKeepsQueuedUnlessIdle state its effects |
| Session.Respond | PingSerial.cpp:149-187 | the response step of the poll; SessionProperties.RespondStep states what it keeps and writes |
| Session.RespondDistance | PingSerial.cpp:150-171 | the distance branch of the response step; SessionProperties.PollDistanceResponse, PollOversizedResponse and PollAwaitsDistance state its three cases |
| Session.RespondTemperature | PingSerial.cpp:172-186 | the temperature branch of the response step; SessionProperties.PollTemperatureResponse and PollOversizedResponse state its two cases |
| Session.CheckTimeout | PingSerial.cpp:189-216 | the timeout step of the poll; SessionProperties.CheckTimeoutStep and PollTimeout state its effects |
| Session.Poll | PingSerial.cpp:118-227 | the state data_available leaves; SessionProperties.PollSteps, PollWritesAtMostOne, PollPreservesInv and the Poll* case lemmas state its effects |
| Session.Reading | PingSerial.cpp:229-249 | the value a getter returns; SessionProperties.TakeReturnsOnce states it |
| Session.Take | PingSerial.cpp:229-249 | the state a getter leaves; SessionProperties.TakeReturnsOnce states it |
| Session.Debug | PingSerial.cpp:283-287 | the state display_debugging leaves; SessionProperties.DebugResets states it |
| SessionProperties.ConstructedSession | PingSerial.h:105-129 | after construction nothing is pending, queued or available, the values and both counters are 0, the buffers are empty, the range is ordered and the invariant holds |
| SessionProperties.RequestWhileBusy | PingSerial.cpp:254-255 | while an operation is pending a request writes nothing and only sets its own queued flag, and repeating it changes nothing |
| SessionProperties.RequestWhileIdle | PingSerial.cpp:256-260 | with nothing pending a request appends exactly its opcode, becomes the only pending kind, sets the start time to now and changes nothing else |
| SessionProperties.RepeatedRequest | PingSerial.h:82-85 | two requests of one kind before an answer write one opcode, and the second one stays queued |
| SessionProperties.RequestPreservesInv | PingSerial.cpp:251-273 | a request keeps the invariant, including at most one pending kind |
| SessionProperties.DeferredSendStep | PingSerial.cpp:139-147 | the deferred-send step keeps the invariant and unread results, writes at most one opcode and only when nothing was received, and does nothing unless the line is idle and empty |
| SessionProperties.RespondStep | PingSerial.cpp:149-187 | the response step keeps the invariant and unread results, writes at most one opcode and only when bytes were received, and leaves the queued flags alone |
| SessionProperties.CheckTimeoutStep | PingSerial.cpp:189-216 | the timeout step keeps the invariant and unread results, writes at most one opcode and only past the timeout, and leaves the queued flags alone |
| SessionProperties.PollSteps | PingSerial.cpp:118-227 | the three steps of a poll compose to Poll, each keeps the invariant, and once one step has written an opcode the later steps write none |
| SessionProperties.PollSendsQueued | PingSerial.cpp:139-147 | with nothing received and nothing pending, poll sends the queued distance request if any, else the queued temperature request, clears that flag only, and otherwise changes nothing |
| SessionProperties.PollKeepsQueuedUnlessIdle | PingSerial.cpp:139 | if something is pending or was received, poll leaves both queued flags unchanged |
| SessionProperties.PollIdleWithUnreadBytes | PingSerial.cpp:149-189 | with bytes waiting and nothing pending, poll sends nothing, drains nothing and changes nothing |
| SessionProperties.StaleByteJoinsDistanceAnswer | PingSerial.cpp:254-260 | a direct request leaves a stray byte in the buffer, and a poll then decodes that byte with the answer's first byte as the stored distance |
| SessionProperties.PollDistanceResponse | PingSerial.cpp:160-171 | exactly two bytes for a pending distance are consumed, decoded big-endian and clamped into {0} ∪ [min, max] ∪ {65535}; the maximum duration becomes max(old, now − start); pending is cleared, available is set and the mask shows it; nothing else changes |
| SessionProperties.PollTemperatureResponse | PingSerial.cpp:180-185 | exactly one byte for a pending temperature is consumed and stored less 45; pending is cleared, available is set and the mask shows it; nothing else changes |
| SessionProperties.PollOversizedResponse | PingSerial.cpp:150-179 | more bytes than the pending kind's answer are all discarded (the buffer is empty below 256 bytes), the same opcode is written again with a new start time, and nothing else changes |
| SessionProperties.PollAwaitsDistance | PingSerial.cpp:151-152 | one byte of a distance answer before the timeout leaves the state unchanged |
| SessionProperties.PollTimeout | PingSerial.cpp:189-216 | a pending kind without a complete answer past start + 99 ms raises the counter (never to 0), discards what was received, and is sent again with a new start time; nothing else changes |
| SessionProperties.PollWritesAtMostOne | PingSerial.cpp:118-227 | a poll writes no opcode or exactly one, and only to start the operation that is then pending, timed from now |
| SessionProperties.PollPreservesInv | PingSerial.cpp:118-227 | a poll keeps the invariant: ordered range, 99 ms timeout, at most one pending kind, stored values in range |
| SessionProperties.PollReportsUnread | PingSerial.h:73-76 | the mask returned by the poll has a kind's bit exactly when that kind's result is unread, and an unread result stays reported |
| SessionProperties.TakeReturnsOnce | PingSerial.cpp:229-249 | a getter returns the stored value when one is available and 0 otherwise, clears only its own flag, so a second call returns 0, and keeps the invariant |
| SessionProperties.DebugResets | PingSerial.cpp:283-287 | the diagnostics are reset to 0 exactly when clear is set, and nothing else changes |
| Trace.StepPreservesInv | PingSerial.cpp:9 | every call into the driver, and bytes arriving, keeps the invariant |
| Trace.RunPreservesInv | PingSerial.cpp:251-273 | every run of calls from a state satisfying the invariant ends in one that satisfies it |
| Trace.SingleTransaction | PingSerial.h:119-121 | in every run after construction at most one kind is pending, the range stays ordered and the stored distance is 0, 65535 or inside the range |
| Driver.PingSerial.constructor | PingSerial.cpp:43-49 | the new driver (range 0 to 500 mm by default) is in the constructed state and valid |
| Driver.PingSerial.Init | PingSerial.cpp:11-41 | the fields afterwards are Configure of the fields before |
| Driver.PingSerial.Read | PingSerial.cpp:69-95 | reading count bytes drops exactly the first count bytes; reading one returns it, reading any other count returns 0 |
| Driver.PingSerial.RequestDistance | PingSerial.cpp:251-261 | the fields afterwards are Request(distance) of the fields before, and the driver stays valid |
| Driver.PingSerial.RequestTemperature | PingSerial.cpp:263-273 | the fields afterwards are Request(temperature) of the fields before, and the driver stays valid |
| Driver.PingSerial.DataAvailable | PingSerial.cpp:118-227 | the fields afterwards are Poll of the fields before, the result is the mask of the new available flags, and the driver stays valid |
| Driver.PingSerial.SendQueued | PingSerial.cpp:139-147 | the fields afterwards are DeferredSend of the fields before |
| Driver.PingSerial.HandleResponse | PingSerial.cpp:149-187 | the fields afterwards are Respond of the fields before |
| Driver.PingSerial.HandleDistanceResponse | PingSerial.cpp:150-171 | the fields afterwards are RespondDistance of the fields before |
| Driver.PingSerial.StoreDistance | PingSerial.cpp:160-171 | the fields afterwards are RespondDistance of the fields before on an exact two-byte answer |
| Driver.PingSerial.HandleTemperatureResponse | PingSerial.cpp:172-186 | the fields afterwards are RespondTemperature of the fields before |
| Driver.PingSerial.StoreTemperature | PingSerial.cpp:180-185 | the fields afterwards are RespondTemperature of the fields before on an exact one-byte answer |
| Driver.PingSerial.Retry | PingSerial.cpp:157-159 | the pending kind is cleared and requested again: the fields afterwards are Request of that kind on the fields before with pending cleared (the same retry appears at PingSerial.cpp:178-179 and 207-215) |
| Driver.PingSerial.HandleTimeout | PingSerial.cpp:189-216 | the fields afterwards are CheckTimeout of the fields before |
| Driver.PingSerial.GetDistance | PingSerial.cpp:229-238 | returns Reading(distance) of the fields before and leaves Take(distance) of them |
| Driver.PingSerial.GetTemperature | PingSerial.cpp:240-249 | returns Reading(temperature) of the fields before and leaves Take(temperature) of them |
| Driver.PingSerial.DisplayDebugging | PingSerial.cpp:275-288 | reports both diagnostic counters as they were, and leaves Debug of the fields before |

## Left out

- Serial plumbing is out of the model. That covers choosing a hardware or software serial port, the port pointers the constructors take, `begin()` opening the port at 9600 baud, and the `write` wrapper. The port is reduced to the `rx` buffer and the `tx` log, and writing a byte appends it to `tx`.
- Debug output (`DBG_PRINT`, `DBG_PRINTLN`) is out. `DisplayDebugging` returns the two values the original prints instead of printing them. The `_min_mm_distance >= max_mm_distance` test in `Init` only guards a debug print, so it is left out too.
- Driver.PingSerial.DataAvailable: does not model the 32-bit wrap-around of `millis()` in `millis() - _op_started` and `_op_started + _op_timeout_ms`. Time is an unbounded `nat`, and poll requires `now >= opStarted`, which is the monotonic clock the driver expects. `_max_op_duration_ms` is unbounded for the same reason.
- Driver.PingSerial.DataAvailable: the original reads `millis()` up to three times within one poll. The model uses one reading, `now`, for all of them.
- Protocol.DecodeDistance: C++ leaves unspecified which `read()` in `(read() * 256) + read()` runs first. The model takes the intended order: the first byte received is the high byte.
- Driver.PingSerial.Read: requires at least `count` bytes waiting, because every caller passes a count it has just read from the port. What the hardware `read()` returns on an empty buffer (−1) therefore does not arise.
- Bytes arriving from the sensor during a call are not modelled. The single-threaded driver only sees the buffer between its own statements, and the model lets it change only between calls.
