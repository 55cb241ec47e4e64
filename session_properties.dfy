/** What the PingSerial session promises, proved about the reference
    transitions of module Session, entry point by entry point. */
module SessionProperties {
  import opened Protocol
  import opened Session

  /** After construction nothing is pending, queued or available, the stored
      values and both counters are zero, and the range is the two bounds
      given, in order. */
  lemma ConstructedSession(minMm: uint16, maxMm: uint16)
    ensures var s := Construct(minMm, maxMm);
      && Inv(s)
      && multiset{s.minMm, s.maxMm} == multiset{minMm, maxMm}
      && s.rx == [] && s.tx == []
      && !s.distancePending && !s.temperaturePending
      && !s.distanceQueued && !s.temperatureQueued
      && !s.distanceAvail && !s.temperatureAvail
      && s.distance == 0 && s.temperature == 0
      && s.maxOpDurationMs == 0 && s.timeoutCount == 0
  {
  }

  /** While an operation is pending a request writes nothing and only marks
      itself queued; asking again changes nothing more. */
  lemma RequestWhileBusy(s: State, k: Kind, now: nat, later: nat)
    requires OperationPending(s)
    ensures var r := Request(s, k, now);
      && r.tx == s.tx
      && Queued(r, k)
      && SetQueued(r, k, Queued(s, k)) == s
      && Request(r, k, later) == r
  {
  }

  /** With nothing pending a request writes exactly its opcode, becomes the
      one pending operation and starts its timer; nothing else changes. */
  lemma RequestWhileIdle(s: State, k: Kind, now: nat)
    requires !OperationPending(s)
    ensures var r := Request(s, k, now);
      && r.tx == s.tx + [Opcode(k)]
      && Pending(r, k) && !Pending(r, Other(k))
      && r.opStarted == now
      && SetPending(r, k, false).(tx := s.tx, opStarted := s.opStarted) == s
  {
  }

  /** Asking twice for the same kind before the first answer puts one
      opcode on the line and leaves the second request queued: it is sent as
      a transaction of its own once the first has finished. */
  lemma RepeatedRequest(s: State, k: Kind, now: nat, later: nat)
    requires !OperationPending(s)
    ensures var r := Request(Request(s, k, now), k, later);
      && r.tx == s.tx + [Opcode(k)]
      && Pending(r, k)
      && Queued(r, k)
  {
  }

  /** A request keeps a single transaction outstanding, and every other part
      of the invariant. */
  lemma RequestPreservesInv(s: State, k: Kind, now: nat)
    requires Inv(s)
    ensures Inv(Request(s, k, now))
  {
  }

  /** What each step of a poll may do to the channel: write nothing, or one
      opcode that starts the operation then pending, timed from now. */
  predicate WritesAtMostOne(s: State, r: State, now: nat)
  {
    && (r.tx == s.tx || r.tx == s.tx + [DISTANCE_OPCODE] || r.tx == s.tx + [TEMPERATURE_OPCODE])
    && (r.tx != s.tx ==> OperationPending(r) && r.opStarted == now)
    && (r.tx == s.tx ==> r.opStarted == s.opStarted)
  }

  /** What each step of a poll keeps: the invariant, and every unread
      result. */
  predicate KeepsResults(s: State, r: State)
  {
    && Inv(r)
    && (s.distanceAvail ==> r.distanceAvail)
    && (s.temperatureAvail ==> r.temperatureAvail)
  }

  lemma DeferredSendStep(s: State, available: nat, now: nat)
    requires Inv(s)
    ensures var r := DeferredSend(s, available, now);
      && KeepsResults(s, r)
      && WritesAtMostOne(s, r, now)
      && (r.tx != s.tx ==> available == 0)
      && r.rx == s.rx
      && (available != 0 || OperationPending(s) ==> r == s)
  {
  }

  lemma RespondStep(s: State, available: nat, now: nat)
    requires Inv(s) && available <= |s.rx| && s.opStarted <= now
    ensures var r := Respond(s, available, now);
      && KeepsResults(s, r)
      && WritesAtMostOne(s, r, now)
      && (r.tx != s.tx ==> available > 0)
      && r.distanceQueued == s.distanceQueued && r.temperatureQueued == s.temperatureQueued
  {
    if available > 0 {
      if s.distancePending {
        RespondDistanceStep(s, available, now);
      } else if s.temperaturePending {
        RespondTemperatureStep(s, available, now);
      }
    }
  }

  lemma RespondDistanceStep(s: State, available: nat, now: nat)
    requires Inv(s) && available <= |s.rx| && s.opStarted <= now && s.distancePending
    ensures var r := RespondDistance(s, available, now);
      && KeepsResults(s, r)
      && WritesAtMostOne(s, r, now)
      && r.distanceQueued == s.distanceQueued && r.temperatureQueued == s.temperatureQueued
  {
  }

  lemma RespondTemperatureStep(s: State, available: nat, now: nat)
    requires Inv(s) && 0 < available <= |s.rx| && s.temperaturePending
    ensures var r := RespondTemperature(s, available, now);
      && KeepsResults(s, r)
      && WritesAtMostOne(s, r, now)
      && r.distanceQueued == s.distanceQueued && r.temperatureQueued == s.temperatureQueued
  {
  }

  lemma CheckTimeoutStep(s: State, now: nat)
    requires Inv(s)
    ensures var r := CheckTimeout(s, now);
      && KeepsResults(s, r)
      && WritesAtMostOne(s, r, now)
      && (r.tx != s.tx ==> now > s.opStarted + s.opTimeoutMs)
      && r.distanceQueued == s.distanceQueued && r.temperatureQueued == s.temperatureQueued
  {
  }

  /** The three steps of a poll, with what each of them keeps. */
  lemma PollSteps(s: State, now: nat)
    requires Inv(s) && s.opStarted <= now
    ensures var s1 := DeferredSend(s, AvailableCount(s), now);
      && KeepsResults(s, s1) && WritesAtMostOne(s, s1, now)
      && s1.rx == s.rx && s1.opStarted <= now
      && var s2 := Respond(s1, AvailableCount(s), now);
      && KeepsResults(s1, s2) && WritesAtMostOne(s1, s2, now)
      && (s1.tx != s.tx ==> s2.tx == s1.tx)
      && var s3 := CheckTimeout(s2, now);
      && s3 == Poll(s, now)
      && KeepsResults(s2, s3) && WritesAtMostOne(s2, s3, now)
      && (s2.tx != s.tx ==> s3.tx == s2.tx)
  {
    var n := AvailableCount(s);
    DeferredSendStep(s, n, now);
    var s1 := DeferredSend(s, n, now);
    RespondStep(s1, n, now);
    var s2 := Respond(s1, n, now);
    CheckTimeoutStep(s2, now);
  }

  /** With nothing received and nothing pending, poll sends the queued
      distance request if there is one, else the queued temperature request,
      clears that one's queued flag, and does nothing else. */
  lemma PollSendsQueued(s: State, now: nat)
    requires Inv(s) && s.opStarted <= now
    requires AvailableCount(s) == 0 && !OperationPending(s)
    ensures var r := Poll(s, now);
      && (s.distanceQueued ==>
            r == s.(distanceQueued := false, distancePending := true,
                    tx := s.tx + [DISTANCE_OPCODE], opStarted := now))
      && (!s.distanceQueued && s.temperatureQueued ==>
            r == s.(temperatureQueued := false, temperaturePending := true,
                    tx := s.tx + [TEMPERATURE_OPCODE], opStarted := now))
      && (!s.distanceQueued && !s.temperatureQueued ==> r == s)
  {
  }

  /** A queued request is sent only from an idle, empty channel: if anything
      is pending or anything was received, poll leaves both queued flags as
      they were. */
  lemma PollKeepsQueuedUnlessIdle(s: State, now: nat)
    requires Inv(s) && s.opStarted <= now
    requires OperationPending(s) || AvailableCount(s) != 0
    ensures Poll(s, now).distanceQueued == s.distanceQueued
    ensures Poll(s, now).temperatureQueued == s.temperatureQueued
  {
    var n := AvailableCount(s);
    DeferredSendStep(s, n, now);
    var s1 := DeferredSend(s, n, now);
    RespondStep(s1, n, now);
    CheckTimeoutStep(Respond(s1, n, now), now);
  }

  /** Bytes that arrive while nothing is pending are not read by poll: it
      sends nothing, drains nothing and changes nothing, so queued requests
      wait for as long as those bytes stay. */
  lemma PollIdleWithUnreadBytes(s: State, now: nat)
    requires s.opStarted <= now
    requires !OperationPending(s) && AvailableCount(s) != 0
    ensures Poll(s, now) == s
  {
  }

  /** A direct request does not look at the receive buffer, so a stray byte
      left there while the line was idle is taken as the high byte of the
      next distance answer: together with the answer's first byte it is
      decoded and stored as the distance. */
  lemma StaleByteJoinsDistanceAnswer(s: State, stale: byte, hi: byte, sent: nat, now: nat)
    requires Inv(s) && !OperationPending(s) && s.rx == [stale]
    requires sent <= now
    ensures var q := Request(s, Distance, sent);
      && q.rx == [stale]
      && var r := Poll(q.(rx := q.rx + [hi]), now);
      && r.distance == Clamp(DecodeDistance(stale, hi), s.minMm, s.maxMm)
      && r.distanceAvail && !OperationPending(r) && r.rx == []
  {
  }

  /** A two-byte answer to a pending distance request is consumed, decoded
      big-endian and clamped into the stored range; the operation's duration
      feeds the running maximum; the distance becomes available and nothing
      is pending any more. */
  lemma PollDistanceResponse(s: State, now: nat)
    requires Inv(s) && s.opStarted <= now
    requires s.distancePending && AvailableCount(s) == 2
    ensures var r := Poll(s, now);
      && r.distance == Clamp(DecodeDistance(s.rx[0], s.rx[1]), s.minMm, s.maxMm)
      && StoredDistance(r.distance, s.minMm, s.maxMm)
      && r.maxOpDurationMs == Max(now - s.opStarted, s.maxOpDurationMs)
      && r == s.(rx := s.rx[2..], distancePending := false, distanceAvail := true,
                 distance := r.distance, maxOpDurationMs := r.maxOpDurationMs)
      && !OperationPending(r)
      && Mask(r) & DISTANCE != 0
  {
  }

  /** A one-byte answer to a pending temperature request is consumed and
      stored less 45, without a range check; the temperature becomes
      available and nothing is pending any more. */
  lemma PollTemperatureResponse(s: State, now: nat)
    requires Inv(s) && s.opStarted <= now
    requires s.temperaturePending && AvailableCount(s) == 1
    ensures var r := Poll(s, now);
      && r.temperature + TEMPERATURE_OFFSET == s.rx[0]
      && r == s.(rx := s.rx[1..], temperaturePending := false, temperatureAvail := true,
                 temperature := r.temperature)
      && !OperationPending(r)
      && Mask(r) & TEMPERATURE != 0
  {
  }

  /** More bytes than the pending kind's answer has: all of them are
      discarded and the same request goes out again with a new start time;
      no result, flag or counter changes. */
  lemma PollOversizedResponse(s: State, k: Kind, now: nat)
    requires Inv(s) && s.opStarted <= now
    requires Pending(s, k) && AvailableCount(s) > ResponseLength(k)
    ensures Poll(s, now) ==
      s.(rx := s.rx[AvailableCount(s)..], tx := s.tx + [Opcode(k)], opStarted := now)
    ensures |s.rx| < 256 ==> Poll(s, now).rx == []
  {
    assert k == Distance || k == Temperature;
  }

  /** Half a distance answer before the timeout: poll waits and changes
      nothing. */
  lemma PollAwaitsDistance(s: State, now: nat)
    requires Inv(s) && s.opStarted <= now
    requires s.distancePending && AvailableCount(s) == 1
    requires now <= s.opStarted + OP_TIMEOUT_MS
    ensures Poll(s, now) == s
  {
  }

  /** No complete answer within the timeout: the counter goes up (to 1 when
      it wraps, never to 0), whatever was received is discarded, and the same
      request is sent again with a new start time. */
  lemma PollTimeout(s: State, k: Kind, now: nat)
    requires Inv(s) && s.opStarted <= now
    requires Pending(s, k)
    requires AvailableCount(s) == 0 || (k == Distance && AvailableCount(s) == 1)
    requires now > s.opStarted + OP_TIMEOUT_MS
    ensures Poll(s, now) ==
      s.(timeoutCount := NextTimeoutCount(s.timeoutCount),
         rx := s.rx[AvailableCount(s)..],
         tx := s.tx + [Opcode(k)],
         opStarted := now)
    ensures Poll(s, now).timeoutCount != 0
  {
    assert k == Distance || k == Temperature;
  }

  /** A poll writes at most one opcode, and only to start the operation
      that is then pending, timed from now. */
  lemma PollWritesAtMostOne(s: State, now: nat)
    requires Inv(s) && s.opStarted <= now
    ensures var r := Poll(s, now);
      && (r.tx == s.tx || r.tx == s.tx + [DISTANCE_OPCODE] || r.tx == s.tx + [TEMPERATURE_OPCODE])
      && (r.tx != s.tx ==> OperationPending(r) && r.opStarted == now)
  {
    PollSteps(s, now);
  }

  /** Poll keeps the invariant; in particular it never leaves two
      transactions outstanding. */
  lemma PollPreservesInv(s: State, now: nat)
    requires Inv(s) && s.opStarted <= now
    ensures Inv(Poll(s, now))
  {
    PollSteps(s, now);
  }

  /** The mask poll returns has the bit of every kind with an unread result
      and no other bit, and a result stays reported until it is read. */
  lemma PollReportsUnread(s: State, now: nat)
    requires Inv(s) && s.opStarted <= now
    ensures var r := Poll(s, now);
      && (Mask(r) & DISTANCE != 0) == r.distanceAvail
      && (Mask(r) & TEMPERATURE != 0) == r.temperatureAvail
      && Mask(r) <= 3
      && (s.distanceAvail ==> r.distanceAvail)
      && (s.temperatureAvail ==> r.temperatureAvail)
  {
    PollSteps(s, now);
  }

  /** A getter returns the stored value once and clears its flag, so a
      second call without a new answer returns 0; nothing else changes. */
  lemma TakeReturnsOnce(s: State, k: Kind)
    requires Inv(s)
    ensures Avail(s, k) && k == Distance ==> Reading(s, k) == s.distance
    ensures Avail(s, k) && k == Temperature ==> Reading(s, k) == s.temperature
    ensures !Avail(s, k) ==> Reading(s, k) == 0
    ensures !Avail(Take(s, k), k) && Reading(Take(s, k), k) == 0
    ensures Take(s, k).(distanceAvail := s.distanceAvail, temperatureAvail := s.temperatureAvail) == s
    ensures Inv(Take(s, k))
  {
  }

  /** The diagnostics are reset exactly when asked, and nothing else is. */
  lemma DebugResets(s: State, clear: bool)
    requires Inv(s)
    ensures clear ==> Debug(s, clear).maxOpDurationMs == 0 && Debug(s, clear).timeoutCount == 0
    ensures Debug(s, clear).(maxOpDurationMs := s.maxOpDurationMs, timeoutCount := s.timeoutCount) == s
    ensures !clear ==> Debug(s, clear) == s
    ensures Inv(Debug(s, clear))
  {
  }
}
