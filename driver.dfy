/** The PingSerial driver object. Its fields are the member variables of the
    original class, plus the serial port it talks to, reduced to the bytes
    waiting to be read (`rx`) and the bytes written so far (`tx`). The clock
    is the `now` argument of each entry point that reads it. Every method but
    `Read` is proved to leave the object in the state the matching function
    of module Session computes; `Read` is specified on `rx` alone. */
module Driver {
  import opened Protocol
  import opened Session

  class PingSerial {
    // The serial port.
    var rx: seq<byte>
    var tx: seq<byte>

    // Timing and diagnostics.
    var opStarted: nat
    var maxOpDurationMs: nat
    var opTimeoutMs: uint16
    var timeoutCount: uint16

    // Stored values and the range they are clamped to.
    var distance: uint16
    var temperature: int
    var minMm: uint16
    var maxMm: uint16

    // Per-kind flags.
    var distancePending: bool
    var temperaturePending: bool
    var distanceAvail: bool
    var temperatureAvail: bool
    var distanceQueued: bool
    var temperatureQueued: bool

    /** The object's fields as a value. */
    function Snapshot(): State
      reads this
    {
      State(rx, tx, opStarted, maxOpDurationMs, opTimeoutMs, timeoutCount,
            distance, temperature, minMm, maxMm,
            distancePending, temperaturePending, distanceAvail, temperatureAvail,
            distanceQueued, temperatureQueued)
    }

    ghost predicate Valid()
      reads this
    {
      Inv(Snapshot())
    }

    /** The field initialisers, then `Init` with the range given (0 to 500 mm
        when none is). */
    constructor (minMmDistance: uint16 := 0, maxMmDistance: uint16 := 500)
      ensures Valid()
      ensures Snapshot() == Construct(minMmDistance, maxMmDistance)
    {
      rx, tx := [], [];
      opStarted, maxOpDurationMs, opTimeoutMs, timeoutCount := 0, 0, 0, 0;
      distance, temperature := 0, 0;
      minMm, maxMm := 0, UINT16_MAX;
      distancePending, temperaturePending := false, false;
      distanceAvail, temperatureAvail := false, false;
      distanceQueued, temperatureQueued := false, false;
      new;
      Init(minMmDistance, maxMmDistance);
    }

    method Init(minMmDistance: uint16, maxMmDistance: uint16)
      modifies this
      ensures Snapshot() == Configure(old(Snapshot()), minMmDistance, maxMmDistance)
    {
      opTimeoutMs := OP_TIMEOUT_MS;
      minMm := if minMmDistance < maxMmDistance then minMmDistance else maxMmDistance;
      maxMm := if maxMmDistance > minMmDistance then maxMmDistance else minMmDistance;
    }

    /** Read one byte and return it, or read `count` bytes other than one and
        discard them. */
    method Read(count: byte) returns (b: int)
      requires count <= |rx|
      modifies this`rx
      ensures rx == old(rx)[count..]
      ensures count == 1 ==> b == old(rx)[0]
      ensures count != 1 ==> b == 0
    {
      if count == 1 {
        b := rx[0];
        rx := rx[1..];
      } else {
        for i := 0 to count
          invariant rx == old(rx)[i..]
        {
          rx := rx[1..];
        }
        b := 0;
      }
    }

    method RequestDistance(now: nat)
      requires Valid()
      modifies this
      ensures Valid()
      ensures Snapshot() == Request(old(Snapshot()), Distance, now)
    {
      if distancePending || temperaturePending {
        distanceQueued := true;
      } else {
        tx := tx + [DISTANCE_OPCODE];
        distancePending := true;
        opStarted := now;
      }
    }

    method RequestTemperature(now: nat)
      requires Valid()
      modifies this
      ensures Valid()
      ensures Snapshot() == Request(old(Snapshot()), Temperature, now)
    {
      if distancePending || temperaturePending {
        temperatureQueued := true;
      } else {
        tx := tx + [TEMPERATURE_OPCODE];
        temperaturePending := true;
        opStarted := now;
      }
    }

    /** The poll step: deferred send, response handling, timeout, and the
        mask of unread results. */
    method DataAvailable(now: nat) returns (mask: bv8)
      requires Valid() && opStarted <= now
      modifies this
      ensures Valid()
      ensures Snapshot() == Poll(old(Snapshot()), now)
      ensures mask == Mask(Snapshot())
    {
      var available: byte := |rx| % 256;
      SendQueued(available, now);
      HandleResponse(available, now);
      HandleTimeout(now);

      mask := 0;
      if distanceAvail {
        mask := mask | DISTANCE;
      }
      if temperatureAvail {
        mask := mask | TEMPERATURE;
      }
    }

    /** First part of the poll step: a queued request goes out only when
        nothing has been received and nothing is pending. */
    method SendQueued(available: byte, now: nat)
      requires Valid()
      modifies this
      ensures Valid()
      ensures Snapshot() == DeferredSend(old(Snapshot()), available, now)
    {
      if available == 0 && !(distancePending || temperaturePending) {
        if distanceQueued {
          distanceQueued := false;
          RequestDistance(now);
        } else if temperatureQueued {
          temperatureQueued := false;
          RequestTemperature(now);
        }
      }
    }

    /** Second part of the poll step: validate and store the response of
        the pending operation. */
    method HandleResponse(available: byte, now: nat)
      requires Valid() && available <= |rx| && opStarted <= now
      modifies this
      ensures Valid()
      ensures Snapshot() == Respond(old(Snapshot()), available, now)
    {
      if available > 0 {
        if distancePending {
          HandleDistanceResponse(available, now);
        } else if temperaturePending {
          HandleTemperatureResponse(available, now);
        }
      }
    }

    method HandleDistanceResponse(available: byte, now: nat)
      requires Valid() && distancePending && available <= |rx| && opStarted <= now
      modifies this
      ensures Valid()
      ensures Snapshot() == RespondDistance(old(Snapshot()), available, now)
    {
      if available < 2 {
        // Only part of the response so far: wait.
      } else if available > 2 {
        var _ := Read(available);
        Retry(now);
      } else {
        StoreDistance(now);
      }
    }

    /** A complete distance answer: record the operation's duration, decode
        the two bytes, and store the clamped value as available. */
    method StoreDistance(now: nat)
      requires Valid() && 2 <= |rx| && opStarted <= now
      modifies this
      ensures Valid()
      ensures Snapshot() == RespondDistance(old(Snapshot()), 2, now)
    {
      maxOpDurationMs := Max(now - opStarted, maxOpDurationMs);
      var hi := Read(1);
      var lo := Read(1);
      distance := DecodeDistance(hi, lo);
      distancePending := false;
      distanceAvail := true;
      distance := Clamp(distance, minMm, maxMm);
    }

    method HandleTemperatureResponse(available: byte, now: nat)
      requires Valid() && temperaturePending && 0 < available <= |rx|
      modifies this
      ensures Valid()
      ensures Snapshot() == RespondTemperature(old(Snapshot()), available, now)
    {
      if available > 1 {
        var _ := Read(available);
        Retry(now);
      } else {
        StoreTemperature(now);
      }
    }

    /** A complete temperature answer: decode the byte and store it as
        available. Unlike a distance, no duration is recorded, so the clock
        reading `now` only completes the reference transition. */
    method StoreTemperature(now: nat)
      requires Valid() && 1 <= |rx|
      modifies this
      ensures Valid()
      ensures Snapshot() == RespondTemperature(old(Snapshot()), 1, now)
    {
      var t := Read(1);
      temperature := DecodeTemperature(t);
      temperaturePending := false;
      temperatureAvail := true;
    }

    /** Last part of the poll step: count a timed-out operation, discard
        what was received, and send the same request again. */
    method HandleTimeout(now: nat)
      requires Valid()
      modifies this
      ensures Valid()
      ensures Snapshot() == CheckTimeout(old(Snapshot()), now)
    {
      if (distancePending || temperaturePending) && now > opStarted + opTimeoutMs {
        timeoutCount := NextTimeoutCount(timeoutCount);
        var available: byte := |rx| % 256;
        var _ := Read(available);
        Retry(now);
      }
    }

    /** Send the pending request again as a fresh operation. */
    method Retry(now: nat)
      requires Valid() && (distancePending || temperaturePending)
      modifies this
      ensures Valid()
      ensures old(distancePending) ==>
        Snapshot() == Request(old(Snapshot()).(distancePending := false), Distance, now)
      ensures !old(distancePending) ==>
        Snapshot() == Request(old(Snapshot()).(temperaturePending := false), Temperature, now)
    {
      if distancePending {
        distancePending := false;
        RequestDistance(now);
      } else {
        temperaturePending := false;
        RequestTemperature(now);
      }
    }

    /** Return-once read of the distance; 0 when none is available. */
    method GetDistance() returns (d: uint16)
      requires Valid()
      modifies this`distanceAvail
      ensures Valid()
      ensures d == Reading(old(Snapshot()), Distance)
      ensures Snapshot() == Take(old(Snapshot()), Distance)
    {
      if distanceAvail {
        distanceAvail := false;
        d := distance;
      } else {
        d := 0;
      }
    }

    /** Return-once read of the temperature; 0 when none is available. */
    method GetTemperature() returns (t: int)
      requires Valid()
      modifies this`temperatureAvail
      ensures Valid()
      ensures t == Reading(old(Snapshot()), Temperature)
      ensures Snapshot() == Take(old(Snapshot()), Temperature)
    {
      if temperatureAvail {
        temperatureAvail := false;
        t := temperature;
      } else {
        t := 0;
      }
    }

    /** Report the diagnostics (the values the original prints) and reset
        them when `clear` is set. */
    method DisplayDebugging(clear: bool := false) returns (durationMs: nat, timeouts: uint16)
      requires Valid()
      modifies this`maxOpDurationMs, this`timeoutCount
      ensures Valid()
      ensures durationMs == old(maxOpDurationMs) && timeouts == old(timeoutCount)
      ensures Snapshot() == Debug(old(Snapshot()), clear)
    {
      durationMs, timeouts := maxOpDurationMs, timeoutCount;
      if clear {
        maxOpDurationMs := 0;
        timeoutCount := 0;
      }
    }
  }

  /** A caller of the driver: default range, a distance of 500 mm is
      requested and answered, the poll reports it, and it can be read once. */
  method DistanceInRangeClient()
  {
    var p := new PingSerial();
    p.RequestDistance(10);
    assert p.tx == [DISTANCE_OPCODE];
    p.rx := p.rx + [0x01, 0xF4];
    var mask := p.DataAvailable(30);
    assert mask == DISTANCE;
    var d := p.GetDistance();
    assert d == 500;
    d := p.GetDistance();
    assert d == 0;
  }

  /** An answer beyond the maximum of the range reads as UINT16_MAX. */
  method DistanceTooFarClient()
  {
    var p := new PingSerial(0, 500);
    p.RequestDistance(0);
    p.rx := p.rx + [0x07, 0xD0];
    var mask := p.DataAvailable(40);
    assert mask == DISTANCE;
    var d := p.GetDistance();
    assert d == UINT16_MAX;
  }

  /** A temperature request that is never answered is sent again once, and
      counted, as soon as the clock passes the 99 ms timeout. */
  method TemperatureTimeoutClient()
  {
    var p := new PingSerial();
    p.RequestTemperature(0);
    var mask := p.DataAvailable(99);
    assert mask == 0 && p.tx == [TEMPERATURE_OPCODE] && p.timeoutCount == 0;
    mask := p.DataAvailable(100);
    assert mask == 0 && p.tx == [TEMPERATURE_OPCODE, TEMPERATURE_OPCODE];
    assert p.timeoutCount == 1 && p.temperaturePending && p.opStarted == 100;
  }

  /** A temperature requested during a distance operation is queued, and is
      sent by the first poll after the distance answer has been consumed. */
  method QueuedTemperatureClient()
  {
    var p := new PingSerial();
    p.RequestDistance(0);
    p.RequestTemperature(5);
    assert p.tx == [DISTANCE_OPCODE] && p.temperatureQueued;
    p.rx := p.rx + [0x00, 0x64];
    var mask := p.DataAvailable(20);
    assert mask == DISTANCE && p.tx == [DISTANCE_OPCODE] && p.temperatureQueued;
    mask := p.DataAvailable(21);
    assert p.tx == [DISTANCE_OPCODE, TEMPERATURE_OPCODE];
    assert p.temperaturePending && !p.temperatureQueued;
  }

  /** A one-byte temperature answer of 70 reads as 25 degrees, once. */
  method TemperatureAnswerClient()
  {
    var p := new PingSerial();
    p.RequestTemperature(0);
    p.rx := p.rx + [70];
    var mask := p.DataAvailable(15);
    assert mask == TEMPERATURE;
    var t := p.GetTemperature();
    assert t == 25;
    t := p.GetTemperature();
    assert t == 0;
  }

  /** Asking for a distance a second time before the answer writes nothing
      at once, but the repeat is queued and becomes a second transaction;
      meanwhile the first result is both available and pending again. */
  method RepeatedDistanceClient()
  {
    var p := new PingSerial();
    p.RequestDistance(0);
    p.RequestDistance(1);
    assert p.tx == [DISTANCE_OPCODE] && p.distanceQueued;
    p.rx := p.rx + [0x01, 0x00];
    var mask := p.DataAvailable(20);
    assert mask == DISTANCE && p.distance == 256;
    mask := p.DataAvailable(21);
    assert p.tx == [DISTANCE_OPCODE, DISTANCE_OPCODE];
    assert p.distancePending && p.distanceAvail;
  }
}
