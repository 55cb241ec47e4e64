/** The PingSerial session as a value: every member field of the driver, the
    serial port's receive buffer and the log of bytes written to it, and the
    reference transition of each entry point. The class in module Driver
    performs these transitions in place and is proved to agree with them. */
module Session {
  import opened Protocol

  datatype State = State(
    rx: seq<byte>,             // bytes received and not yet read
    tx: seq<byte>,             // every byte written to the sensor, oldest first
    opStarted: nat,            // clock reading when the last request was sent
    maxOpDurationMs: nat,      // diagnostic: longest distance operation seen
    opTimeoutMs: uint16,
    timeoutCount: uint16,      // diagnostic: timeouts hit
    distance: uint16,
    temperature: int,
    minMm: uint16,
    maxMm: uint16,
    distancePending: bool,     // request sent, neither answered nor timed out
    temperaturePending: bool,
    distanceAvail: bool,       // a result is stored and not yet retrieved
    temperatureAvail: bool,
    distanceQueued: bool,      // requested while another operation was pending
    temperatureQueued: bool)

  /** What the driver keeps true between calls: an ordered range, the fixed
      timeout, a single outstanding transaction, and stored values that are
      what decoding can produce. */
  predicate Inv(s: State)
  {
    && s.minMm <= s.maxMm
    && s.opTimeoutMs == OP_TIMEOUT_MS
    && !(s.distancePending && s.temperaturePending)
    && StoredDistance(s.distance, s.minMm, s.maxMm)
    && TemperatureInRange(s.temperature)
  }

  predicate OperationPending(s: State)
  {
    s.distancePending || s.temperaturePending
  }

  function Pending(s: State, k: Kind): bool
  {
    match k
    case Distance => s.distancePending
    case Temperature => s.temperaturePending
  }

  function Queued(s: State, k: Kind): bool
  {
    match k
    case Distance => s.distanceQueued
    case Temperature => s.temperatureQueued
  }

  function Avail(s: State, k: Kind): bool
  {
    match k
    case Distance => s.distanceAvail
    case Temperature => s.temperatureAvail
  }

  function Other(k: Kind): Kind
  {
    match k
    case Distance => Temperature
    case Temperature => Distance
  }

  function SetPending(s: State, k: Kind, b: bool): State
  {
    match k
    case Distance => s.(distancePending := b)
    case Temperature => s.(temperaturePending := b)
  }

  function SetQueued(s: State, k: Kind, b: bool): State
  {
    match k
    case Distance => s.(distanceQueued := b)
    case Temperature => s.(temperatureQueued := b)
  }

  /** The field initialisers of the class, before the constructor body runs. */
  function Initial(): State
  {
    State([], [], 0, 0, 0, 0, 0, 0, 0, UINT16_MAX,
          false, false, false, false, false, false)
  }

  /** `Init`: fix the timeout and store the range in order, whichever way
      round it was given. Nothing else changes. */
  function Configure(s: State, minMm: uint16, maxMm: uint16): (r: State)
    ensures r.minMm <= r.maxMm
    ensures multiset{r.minMm, r.maxMm} == multiset{minMm, maxMm}
    ensures r.opTimeoutMs == OP_TIMEOUT_MS
    ensures r.(minMm := s.minMm, maxMm := s.maxMm, opTimeoutMs := s.opTimeoutMs) == s
  {
    s.(opTimeoutMs := OP_TIMEOUT_MS,
       minMm := if minMm <= maxMm then minMm else maxMm,
       maxMm := if maxMm >= minMm then maxMm else minMm)
  }

  /** The state right after construction. */
  function Construct(minMm: uint16, maxMm: uint16): State
  {
    Configure(Initial(), minMm, maxMm)
  }

  /** `request_distance` / `request_temperature`: while an operation is
      pending only remember the request; otherwise send the opcode and start
      the operation's clock. */
  function Request(s: State, k: Kind, now: nat): State
  {
    if OperationPending(s) then SetQueued(s, k, true)
    else SetPending(s, k, true).(tx := s.tx + [Opcode(k)], opStarted := now)
  }

  /** Poll, step 1: a queued request is sent only when nothing was received
      and nothing is pending; distance goes first, and at most one is sent. */
  function DeferredSend(s: State, available: nat, now: nat): State
  {
    if available == 0 && !OperationPending(s) then
      if s.distanceQueued then Request(s.(distanceQueued := false), Distance, now)
      else if s.temperatureQueued then Request(s.(temperatureQueued := false), Temperature, now)
      else s
    else s
  }

  /** Poll, step 2: consume the response of the pending operation. */
  function Respond(s: State, available: nat, now: nat): State
    requires available <= |s.rx| && s.opStarted <= now
  {
    if available == 0 then s
    else if s.distancePending then RespondDistance(s, available, now)
    else if s.temperaturePending then RespondTemperature(s, available, now)
    else s
  }

  /** A distance response is exactly two bytes: fewer means wait, more are
      all discarded and the request is sent again. */
  function RespondDistance(s: State, available: nat, now: nat): State
    requires available <= |s.rx| && s.opStarted <= now
  {
    if available < 2 then s
    else if available > 2 then
      Request(s.(rx := s.rx[available..], distancePending := false), Distance, now)
    else
      s.(maxOpDurationMs := Max(now - s.opStarted, s.maxOpDurationMs),
         distance := Clamp(DecodeDistance(s.rx[0], s.rx[1]), s.minMm, s.maxMm),
         rx := s.rx[2..],
         distancePending := false,
         distanceAvail := true)
  }

  /** A temperature response is one byte: more are all discarded and the
      request is sent again. */
  function RespondTemperature(s: State, available: nat, now: nat): State
    requires 0 < available <= |s.rx|
  {
    if available > 1 then
      Request(s.(rx := s.rx[available..], temperaturePending := false), Temperature, now)
    else
      s.(temperature := DecodeTemperature(s.rx[0]),
         rx := s.rx[1..],
         temperaturePending := false,
         temperatureAvail := true)
  }

  predicate TimedOut(s: State, now: nat)
  {
    OperationPending(s) && now > s.opStarted + s.opTimeoutMs
  }

  /** Poll, step 3: an operation still pending past the timeout is counted,
      whatever was received is discarded, and the request is sent again. */
  function CheckTimeout(s: State, now: nat): State
  {
    if TimedOut(s, now) then
      var t := s.(timeoutCount := NextTimeoutCount(s.timeoutCount),
                  rx := s.rx[|s.rx| % 256..]);
      if t.distancePending then Request(t.(distancePending := false), Distance, now)
      else Request(t.(temperaturePending := false), Temperature, now)
    else s
  }

  /** The number of received bytes as the driver sees it: the count is
      stored in a byte. */
  function AvailableCount(s: State): (n: byte)
    ensures n <= |s.rx|
    ensures |s.rx| < 256 ==> n == |s.rx|
  {
    |s.rx| % 256
  }

  /** `data_available`, the state it leaves behind; the value it returns is
      Mask of that state. */
  function Poll(s: State, now: nat): State
    requires s.opStarted <= now
  {
    var available := AvailableCount(s);
    var s1 := DeferredSend(s, available, now);
    var s2 := Respond(s1, available, now);
    CheckTimeout(s2, now)
  }

  function Mask(s: State): bv8
  {
    AvailableMask(s.distanceAvail, s.temperatureAvail)
  }

  /** `get_distance` / `get_temperature`: the value returned. */
  function Reading(s: State, k: Kind): int
  {
    match k
    case Distance => if s.distanceAvail then s.distance else 0
    case Temperature => if s.temperatureAvail then s.temperature else 0
  }

  /** `get_distance` / `get_temperature`: the state left behind. */
  function Take(s: State, k: Kind): State
  {
    match k
    case Distance => s.(distanceAvail := false)
    case Temperature => s.(temperatureAvail := false)
  }

  /** `display_debugging`: the diagnostics are reset only on request. */
  function Debug(s: State, clear: bool): State
  {
    if clear then s.(maxOpDurationMs := 0, timeoutCount := 0) else s
  }
}
