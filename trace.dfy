/** Runs of the driver: any sequence of calls into it, interleaved with bytes
    arriving from the sensor, and what holds after every such run. */
module Trace {
  import opened Protocol
  import opened Session
  import opened SessionProperties

  /** One call into the driver, or bytes arriving on the serial line. */
  datatype Call =
    | RequestCall(kind: Kind, now: nat)
    | PollCall(now: nat)
    | GetCall(kind: Kind)
    | DebugCall(clear: bool)
    | Receive(bytes: seq<byte>)

  /** The clock never reads earlier than the start of the last operation. */
  predicate Allowed(s: State, c: Call)
  {
    c.PollCall? ==> s.opStarted <= c.now
  }

  function Step(s: State, c: Call): State
    requires Allowed(s, c)
  {
    match c
    case RequestCall(k, now) => Request(s, k, now)
    case PollCall(now) => Poll(s, now)
    case GetCall(k) => Take(s, k)
    case DebugCall(clear) => Debug(s, clear)
    case Receive(bytes) => s.(rx := s.rx + bytes)
  }

  /** Every call of the run is allowed in the state it is made in. */
  predicate Admissible(s: State, calls: seq<Call>)
    decreases |calls|
  {
    calls == [] || (Allowed(s, calls[0]) && Admissible(Step(s, calls[0]), calls[1..]))
  }

  function Run(s: State, calls: seq<Call>): State
    requires Admissible(s, calls)
    decreases |calls|
  {
    if calls == [] then s else Run(Step(s, calls[0]), calls[1..])
  }

  lemma StepPreservesInv(s: State, c: Call)
    requires Inv(s) && Allowed(s, c)
    ensures Inv(Step(s, c))
  {
    match c
    case RequestCall(k, now) => RequestPreservesInv(s, k, now);
    case PollCall(now) => PollPreservesInv(s, now);
    case GetCall(k) => TakeReturnsOnce(s, k);
    case DebugCall(clear) => DebugResets(s, clear);
    case Receive(bytes) =>
  }

  /** Every run keeps the invariant. */
  lemma {:induction false} RunPreservesInv(s: State, calls: seq<Call>)
    requires Inv(s) && Admissible(s, calls)
    ensures Inv(Run(s, calls))
    decreases |calls|
  {
    if calls != [] {
      StepPreservesInv(s, calls[0]);
      RunPreservesInv(Step(s, calls[0]), calls[1..]);
    }
  }

  /** Single transaction: whatever the caller and the sensor do after
      construction, at most one kind is ever pending, and the stored distance
      is always in the configured range or one of its saturation values. */
  lemma SingleTransaction(minMm: uint16, maxMm: uint16, calls: seq<Call>)
    requires Admissible(Construct(minMm, maxMm), calls)
    ensures var s := Run(Construct(minMm, maxMm), calls);
      && !(s.distancePending && s.temperaturePending)
      && StoredDistance(s.distance, s.minMm, s.maxMm)
      && s.minMm <= s.maxMm
  {
    ConstructedSession(minMm, maxMm);
    RunPreservesInv(Construct(minMm, maxMm), calls);
  }
}
