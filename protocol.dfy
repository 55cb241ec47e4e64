/** The US-100 serial protocol as the PingSerial driver speaks it: one opcode
    byte per request, a two-byte big-endian distance or a one-byte offset
    temperature per response, and the pure arithmetic the driver applies to
    what it receives (range clamping, the timeout counter, the result mask). */
module Protocol {

  /** A byte on the serial line. */
  type byte = x: int | 0 <= x < 256

  /** The driver's `uint16_t` fields. */
  type uint16 = x: int | 0 <= x < 65536

  const UINT16_MAX: uint16 := 65535

  /** Opcode that asks the sensor for a distance reading. */
  const DISTANCE_OPCODE: byte := 0x55

  /** Opcode that asks the sensor for a temperature reading. */
  const TEMPERATURE_OPCODE: byte := 0x50

  /** The sensor reports temperature as a byte offset by this amount. */
  const TEMPERATURE_OFFSET: int := 45

  /** How long an operation may take before it is retried, in milliseconds. */
  const OP_TIMEOUT_MS: uint16 := 99

  /** Bits of the mask returned by the poll entry point. */
  const DISTANCE: bv8 := 0x1
  const TEMPERATURE: bv8 := 0x2

  /** The two measurements the sensor provides over its single channel. */
  datatype Kind = Distance | Temperature

  function Opcode(k: Kind): (op: byte)
    ensures op == DISTANCE_OPCODE || op == TEMPERATURE_OPCODE
    ensures (op == DISTANCE_OPCODE) == (k == Distance)
  {
    match k
    case Distance => DISTANCE_OPCODE
    case Temperature => TEMPERATURE_OPCODE
  }

  /** Exact number of bytes a well-formed response of kind `k` has. */
  function ResponseLength(k: Kind): nat
  {
    match k
    case Distance => 2
    case Temperature => 1
  }

  /** A distance response: the first byte received is the high byte. */
  function DecodeDistance(hi: byte, lo: byte): uint16
  {
    hi * 256 + lo
  }

  /** How the sensor sends a distance: high byte first, then low byte. */
  function EncodeDistance(mm: uint16): (byte, byte)
  {
    (mm / 256, mm % 256)
  }

  /** Every distance the sensor can send is decoded as that distance. */
  lemma DecodeEncodeDistance(mm: uint16)
    ensures DecodeDistance(EncodeDistance(mm).0, EncodeDistance(mm).1) == mm
  {
  }

  /** Every two-byte response is the encoding of the distance it decodes
      to, so decoding loses nothing. */
  lemma EncodeDecodeDistance(hi: byte, lo: byte)
    ensures EncodeDistance(DecodeDistance(hi, lo)) == (hi, lo)
  {
  }

  /** What a stored distance may be: a value inside the configured range, or
      one of the two saturation values. */
  predicate StoredDistance(d: uint16, minMm: uint16, maxMm: uint16)
  {
    d == 0 || d == UINT16_MAX || minMm <= d <= maxMm
  }

  /** The saturating range check applied to a decoded distance: above the
      maximum reads as UINT16_MAX, below the minimum as 0. The maximum is
      tested first. */
  function Clamp(d: uint16, minMm: uint16, maxMm: uint16): (r: uint16)
    ensures StoredDistance(r, minMm, maxMm)
    ensures minMm <= d <= maxMm ==> r == d
    ensures d > maxMm ==> r == UINT16_MAX
    ensures d < minMm <= maxMm ==> r == 0
  {
    if d > maxMm then UINT16_MAX
    else if d < minMm then 0
    else d
  }

  predicate TemperatureInRange(t: int)
  {
    -TEMPERATURE_OFFSET <= t <= 255 - TEMPERATURE_OFFSET
  }

  /** A temperature response; no range check is applied to it. */
  function DecodeTemperature(b: byte): (t: int)
    ensures TemperatureInRange(t)
    ensures t + TEMPERATURE_OFFSET == b
  {
    b - TEMPERATURE_OFFSET
  }

  /** The timeout counter is a uint16 that is incremented with wrap-around
      and then raised to at least 1, so that after a wrap it never reads as
      "no timeouts". */
  function NextTimeoutCount(c: uint16): (r: uint16)
    ensures r != 0
    ensures c < UINT16_MAX ==> r == c + 1
    ensures c == UINT16_MAX ==> r == 1
  {
    var wrapped: uint16 := if c == UINT16_MAX then 0 else c + 1;
    if wrapped < 1 then 1 else wrapped
  }

  /** Running maximum of the observed operation durations. */
  function Max(a: nat, b: nat): (m: nat)
    ensures m >= a && m >= b
    ensures m == a || m == b
  {
    if a >= b then a else b
  }

  /** The result of the poll entry point: one bit per kind with an unread
      result, and no other bit. */
  function AvailableMask(distanceAvail: bool, temperatureAvail: bool): (r: bv8)
    ensures (r & DISTANCE != 0) == distanceAvail
    ensures (r & TEMPERATURE != 0) == temperatureAvail
    ensures r & !(DISTANCE | TEMPERATURE) == 0
    ensures r <= 3
  {
    (if distanceAvail then DISTANCE else 0) | (if temperatureAvail then TEMPERATURE else 0)
  }
}
