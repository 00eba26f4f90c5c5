/** The replay recorder: flushing may rotate the session, which stops and restarts the recorder,
    which flushes and may emit again, all inside one synchronous call. */
module UsageTracker {
  import opened Options
  import opened UsageSession

  const FLUSH_AT: nat := 50
  const MAX_REPLAY_BUFFER: nat := 500

  /** Session storage, shared by the trackers of one prefix. */
  class Storage {
    var session: Session

    constructor ()
      ensures session == NO_SESSION
    {
      session := NO_SESSION;
    }
  }

  /** An upload of replay events. */
  datatype Upload = Upload(session: string, number: nat, events: seq<int>)

  /** What one synchronous call sees from outside: the clock, the id that would be created, and the
      events a recorder emits before `record` returns. */
  datatype Moment = Moment(now: nat, minted: string, burst: seq<int>)

  predicate Legal(m: Moment) { m.now > 0 && m.minted != "" }

  /** The hard cap: the newest 50 of a buffer that grew beyond 500. */
  function WithinCap(events: seq<int>): seq<int> {
    if |events| > MAX_REPLAY_BUFFER then events[|events| - 50..] else events
  }

  /** What an empty buffer holds after these events, flushed at every 50th. */
  function Leftover(events: seq<int>): seq<int> { events[|events| - |events| % FLUSH_AT..] }

  lemma LeftoverNext(events: seq<int>, x: int)
    ensures Leftover(events + [x]) == if |Leftover(events)| + 1 >= FLUSH_AT then [] else Leftover(events) + [x]
    ensures |Leftover(events)| < FLUSH_AT && Leftover([]) == []
  {
  }

  /** An upload is due exactly at every 50th event. */
  lemma FullBatches(events: seq<int>)
    ensures |Leftover(events)| == |events| % 50
    ensures (|events| + 1) / 50 == |events| / 50 + if |events| % 50 + 1 >= 50 then 1 else 0
  {
  }

  /** All events of the uploads. */
  ghost function Uploaded(uploads: seq<Upload>): multiset<int> {
    if uploads == [] then multiset{}
    else Uploaded(uploads[..|uploads| - 1]) + multiset(uploads[|uploads| - 1].events)
  }

  /** Every event emitted was uploaded once, is buffered, is in the hands of a flush, or was thrown away. */
  ghost predicate Balanced(emitted: seq<int>, uploads: seq<Upload>, buffered: seq<int>, inHand: seq<int>,
                           dropped: seq<int>)
  {
    multiset(emitted) == Uploaded(uploads) + multiset(buffered) + multiset(inHand) + multiset(dropped)
  }

  lemma BalanceEmit(emitted: seq<int>, uploads: seq<Upload>, buffered: seq<int>, inHand: seq<int>,
                    dropped: seq<int>, x: int)
    requires Balanced(emitted, uploads, buffered, inHand, dropped)
    ensures Balanced(emitted + [x], uploads, buffered + [x], inHand, dropped)
  {
  }

  lemma BalanceTake(emitted: seq<int>, uploads: seq<Upload>, buffered: seq<int>, inHand: seq<int>, dropped: seq<int>)
    requires Balanced(emitted, uploads, buffered, inHand, dropped)
    ensures Balanced(emitted, uploads, [], inHand + buffered, dropped)
    ensures Balanced(emitted, uploads, [], inHand, dropped + buffered)
  {
  }

  lemma BalanceUpload(emitted: seq<int>, uploads: seq<Upload>, buffered: seq<int>, inHand: seq<int>,
                      dropped: seq<int>, u: Upload)
    requires Balanced(emitted, uploads, buffered, inHand + u.events, dropped)
    ensures Balanced(emitted, uploads + [u], buffered, inHand, dropped)
  {
    assert (uploads + [u])[..|uploads|] == uploads;
  }

  /** The events that `stopReplay` throws away, of those buffered and those a recorder emits that the
      flush restarts. */
  function LostByStop(buffered: seq<int>, enabled: bool, restarts: bool, burst: seq<int>): seq<int> {
    if buffered == [] then [] else if !enabled then buffered else if restarts then Leftover(burst) else []
  }

  class Tracker {
    const storage: Storage
    const hasEndpoint: bool
    var dispatchDisabled: bool
    /** `replayStopFn` and `replayInterval` are set. */
    var replayStop: bool
    var replayInterval: bool
    var isRecording: bool
    var replayEvents: seq<int>
    var replaySequence: nat
    /** Recorders that were started and not stopped, and everything uploaded. */
    ghost var live: nat
    ghost var uploads: seq<Upload>
    /** All events ever emitted, those thrown away, and those a suspended flush is about to upload. */
    ghost var emitted: seq<int>
    ghost var dropped: seq<int>
    ghost var inHand: seq<int>

    /** Between calls: the three flags agree, and a recorder runs exactly when they say so. */
    ghost predicate Steady() reads this {
      && replayStop == replayInterval == isRecording && live == (if replayStop then 1 else 0)
      && (!isRecording ==> replayEvents == [])
    }

    ghost predicate Valid() reads this { Steady() && |replayEvents| < FLUSH_AT }

    /** Inside `record`, before it has returned the stop function. */
    ghost predicate Starting() reads this {
      !replayStop && !replayInterval && isRecording && live == 1
    }

    ghost predicate Accounted() reads this { Balanced(emitted, uploads, replayEvents, inHand, dropped) }

    /** What every call keeps: the account, what was uploaded before, and the settings. */
    twostate predicate Keeps() reads this {
      Accounted() && inHand == old(inHand) && old(uploads) <= uploads && dispatchDisabled == old(dispatchDisabled)
    }

    ghost predicate Stale(now: nat) reads storage { Expired(storage.session, now) }

    /** A check of the session would restart the recorder. */
    ghost predicate Restarts(now: nat) reads this, storage { isRecording && Stale(now) }

    predicate Enabled() reads this { hasEndpoint && !dispatchDisabled }

    constructor (storage: Storage, hasEndpoint: bool, disabled: bool)
      ensures Valid() && this.storage == storage && !isRecording
      ensures Accounted() && emitted == [] && inHand == []
    {
      this.storage := storage;
      this.hasEndpoint := hasEndpoint;
      dispatchDisabled := disabled;
      replayStop, replayInterval, isRecording := false, false, false;
      replayEvents, replaySequence := [], 0;
      live, uploads := 0, [];
      emitted, dropped, inHand := [], [], [];
    }

    method CheckAndRotateSession(now: nat) returns (rotated: bool)
      modifies storage
      ensures rotated == Expired(old(storage.session), now)
      ensures storage.session == Checked(old(storage.session), now)
    {
      rotated := false;
      var s := storage.session;
      if (s.lastAct.Some? && s.lastAct.value > 0 && now - s.lastAct.value > IDLE_LIMIT)
         || (s.start.Some? && s.start.value > 0 && now - s.start.value > HARD_LIMIT)
      {
        storage.session := storage.session.(id := "");
        storage.session := storage.session.(start := None);
        storage.session := storage.session.(lastAct := None);
        rotated := true;
      }
      if storage.session.start.None? {
        storage.session := storage.session.(start := Some(now));
      }
    }

    /** The public getter, which does not check for expiry. */
    method SessionId(minted: string) returns (id: string)
      modifies storage
      ensures storage.session == (if old(storage.session).id == "" then old(storage.session).(id := minted)
                                  else old(storage.session))
      ensures id == storage.session.id
    {
      if storage.session.id == "" {
        storage.session := storage.session.(id := minted);
      }
      id := storage.session.id;
    }

    /** The rest of the state a nested call leaves alone while nothing rotates. */
    twostate predicate RecorderUntouched() reads this {
      replayStop == old(replayStop) && replayInterval == old(replayInterval)
      && isRecording == old(isRecording) && live == old(live)
    }

    twostate predicate BufferUntouched() reads this {
      replayEvents == old(replayEvents) && replaySequence == old(replaySequence)
      && uploads == old(uploads) && dropped == old(dropped) && emitted == old(emitted)
    }

    method EnsureSessionCurrent(restartRecorder: bool, m: Moment) returns (id: string)
      requires Legal(m) && Accounted()
      requires Steady() || (Starting() && !Stale(m.now)) || (!restartRecorder && live == 0)
      modifies this, storage
      ensures storage.session == Ensured(old(storage.session), m.now, m.minted) && id == storage.session.id
      ensures Keeps()
      ensures !old(Restarts(m.now)) || !restartRecorder ==> RecorderUntouched() && BufferUntouched()
      ensures old(Restarts(m.now)) && restartRecorder ==> replayEvents == Leftover(m.burst)
      ensures old(Restarts(m.now)) && restartRecorder && old(Enabled()) ==> replaySequence == |m.burst| / 50
      ensures old(Steady()) && (restartRecorder || !old(Restarts(m.now))) ==> Steady() && isRecording == old(isRecording)
      ensures old(Enabled()) ==> dropped == old(dropped)
      decreases if Stale(m.now) then 1 else 0, 2
    {
      var rotated := CheckAndRotateSession(m.now);
      id := SessionId(m.minted);
      EnsuredTwice(old(storage.session), m.now, m.minted, m.minted);
      if restartRecorder && rotated && isRecording {
        StopReplay(m);
        StartReplay(m);
      }
    }

    /** Stopping uploads what is buffered and loses exactly `LostByStop`. */
    method StopReplay(m: Moment)
      requires Legal(m) && Steady() && Accounted()
      modifies this, storage
      ensures Valid() && !isRecording && replayEvents == [] && replaySequence == 0 && Keeps()
      ensures dropped == old(dropped) + LostByStop(old(replayEvents), old(Enabled()), old(Restarts(m.now)), m.burst)
      ensures storage.session == if old(replayEvents) == [] || !old(Enabled()) then old(storage.session)
                                 else Ensured(old(storage.session), m.now, m.minted)
      decreases if Stale(m.now) then 1 else 0, 5
    {
      hide Ensured, Expired, Balanced, Leftover;
      FlushReplays(m);
      ghost var lost := LostByStop(old(replayEvents), old(Enabled()), old(Restarts(m.now)), m.burst);
      assert dropped + replayEvents == old(dropped) + lost;
      ShutDown();
    }

    /** The rest of `stopReplay`. */
    method ShutDown()
      requires Steady() && Accounted()
      modifies this
      ensures Valid() && !isRecording && replayEvents == [] && replaySequence == 0 && Accounted()
      ensures dropped == old(dropped) + old(replayEvents)
      ensures uploads == old(uploads) && inHand == old(inHand) && dispatchDisabled == old(dispatchDisabled)
    {
      hide Balanced;
      BalanceTake(emitted, uploads, replayEvents, inHand, dropped);
      if replayStop {
        live := live - 1;
        replayStop := false;
      }
      if replayInterval {
        replayInterval := false;
      }
      isRecording := false;
      replaySequence := 0;
      dropped := dropped + replayEvents;
      replayEvents := [];
    }

    method StartReplay(m: Moment)
      requires Legal(m) && Valid() && Accounted()
      modifies this, storage
      ensures Valid() && isRecording && Keeps()
      ensures if old(isRecording) then BufferUntouched() else replayEvents == Leftover(m.burst)
      ensures !old(isRecording) && old(Enabled()) ==> replaySequence == old(replaySequence) + |m.burst| / 50
      ensures old(Enabled()) ==> dropped == old(dropped)
      ensures storage.session == if old(isRecording) then old(storage.session)
                                 else Ensured(old(storage.session), m.now, m.minted)
      decreases if Stale(m.now) then 1 else 0, 6
    {
      hide Balanced, Leftover, Ensured, Expired;
      if replayStop { return; }
      if replayInterval { return; }
      var _ := EnsureSessionCurrent(false, m);
      isRecording := true;
      EnsuredTwice(old(storage.session), m.now, m.minted, m.minted);
      live := live + 1;
      LeftoverNext([], 0);
      for i := 0 to |m.burst|
        invariant Starting() && Keeps() && replayEvents == Leftover(m.burst[..i]) && |replayEvents| < FLUSH_AT
        invariant old(Enabled()) ==> dropped == old(dropped) && replaySequence == old(replaySequence) + i / 50
        invariant storage.session == Ensured(old(storage.session), m.now, m.minted)
      {
        LeftoverNext(m.burst[..i], m.burst[i]);
        FullBatches(m.burst[..i]);
        assert m.burst[..i + 1] == m.burst[..i] + [m.burst[i]];
        var _ := Emit(m.burst[i], m);
      }
      assert m.burst[..|m.burst|] == m.burst;
      replayStop := true;
      replayInterval := true;
    }

    method FlushReplays(m: Moment)
      requires Legal(m) && Accounted()
      requires Steady() || (Starting() && !Stale(m.now))
      modifies this, storage
      ensures Keeps()
      ensures old(Steady()) ==> Steady() && isRecording == old(isRecording)
      ensures !old(Stale(m.now)) ==> RecorderUntouched()
      ensures old(replayEvents) == [] ==> BufferUntouched()
      ensures !old(Enabled()) ==> replaySequence == old(replaySequence) && uploads == old(uploads)
      ensures dropped == if old(Enabled()) then old(dropped) else old(dropped) + old(replayEvents)
      ensures replayEvents == if old(replayEvents) != [] && old(Enabled()) && old(Restarts(m.now)) then Leftover(m.burst)
                              else []
      ensures old(replayEvents) != [] && old(Enabled()) ==>
                && |uploads| > |old(uploads)| && uploads[|uploads| - 1].events == old(replayEvents)
                && uploads[|uploads| - 1].session == storage.session.id
                && (old(Restarts(m.now)) ==> uploads[|uploads| - 1].number == |m.burst| / 50)
      ensures old(replayEvents) != [] && old(Enabled()) && !old(Restarts(m.now)) ==>
                && uploads == old(uploads) + [Upload(storage.session.id, old(replaySequence), old(replayEvents))]
                && replaySequence == old(replaySequence) + 1
      ensures storage.session == if old(replayEvents) == [] || !old(Enabled()) then old(storage.session)
                                 else Ensured(old(storage.session), m.now, m.minted)
      decreases if Stale(m.now) then 1 else 0, 4
    {
      hide Balanced, Leftover, Ensured, Expired;
      if |replayEvents| == 0 { return; }
      if dispatchDisabled || !hasEndpoint {
        BalanceTake(emitted, uploads, replayEvents, inHand, dropped);
        dropped := dropped + replayEvents;
        replayEvents := [];
        return;
      }
      UploadReplay(m);
    }

    /** The rest of `flushReplays`, once there is something to upload and somewhere to send it. */
    method UploadReplay(m: Moment)
      requires Legal(m) && Accounted() && replayEvents != [] && Enabled()
      requires Steady() || (Starting() && !Stale(m.now))
      modifies this, storage
      ensures Keeps()
      ensures old(Steady()) ==> Steady() && isRecording == old(isRecording)
      ensures !old(Stale(m.now)) ==> RecorderUntouched()
      ensures dropped == old(dropped)
      ensures replayEvents == if old(Restarts(m.now)) then Leftover(m.burst) else []
      ensures |uploads| > |old(uploads)| && uploads[|uploads| - 1].events == old(replayEvents)
           && uploads[|uploads| - 1].session == storage.session.id
           && (old(Restarts(m.now)) ==> uploads[|uploads| - 1].number == |m.burst| / 50)
      ensures !old(Restarts(m.now)) ==>
                && uploads == old(uploads) + [Upload(storage.session.id, old(replaySequence), old(replayEvents))]
                && replaySequence == old(replaySequence) + 1
      ensures storage.session == Ensured(old(storage.session), m.now, m.minted)
      decreases if Stale(m.now) then 1 else 0, 3
    {
      hide Balanced, Leftover, Ensured, Expired, Legal;
      BalanceTake(emitted, uploads, replayEvents, inHand, dropped);
      var events := replayEvents;
      replayEvents := [];
      inHand := inHand + events;
      var sessionId := EnsureSessionCurrent(true, m);
      SendOff(sessionId, events, old(inHand));
    }

    /** The upload of events in hand. */
    method SendOff(sessionId: string, events: seq<int>, ghost others: seq<int>)
      requires Accounted() && inHand == others + events
      modifies this`uploads, this`inHand, this`replaySequence
      ensures Accounted() && inHand == others
      ensures uploads == old(uploads) + [Upload(sessionId, old(replaySequence), events)]
      ensures replaySequence == old(replaySequence) + 1
    {
      hide Balanced;
      BalanceUpload(emitted, uploads, replayEvents, others, dropped, Upload(sessionId, replaySequence, events));
      uploads := uploads + [Upload(sessionId, replaySequence, events)];
      inHand := others;
      replaySequence := replaySequence + 1;
    }

    /** The recorder's callback; the result says whether the hard cap had to drop events. */
    method Emit(event: int, m: Moment) returns (capped: bool)
      requires Legal(m) && |replayEvents| < FLUSH_AT && Accounted()
      requires (Steady() && isRecording) || (Starting() && !Stale(m.now))
      modifies this, storage
      ensures |replayEvents| < FLUSH_AT && !capped && Keeps()
      ensures !old(Stale(m.now)) ==>
                && replayEvents == (if |old(replayEvents)| + 1 >= 50 then [] else old(replayEvents) + [event])
                && replaySequence == old(replaySequence) + if |old(replayEvents)| + 1 >= 50 && old(Enabled()) then 1 else 0
      ensures old(Enabled()) ==> dropped == old(dropped)
      ensures old(Steady()) ==> Steady() && isRecording
      ensures old(Starting()) ==> Starting()
      ensures storage.session == old(storage.session)
           || storage.session == Ensured(old(storage.session), m.now, m.minted)
      decreases if Stale(m.now) then 1 else 0, 5
    {
      hide Balanced, Leftover, Ensured, Expired;
      BalanceEmit(emitted, uploads, replayEvents, inHand, dropped, event);
      emitted := emitted + [event];
      replayEvents := replayEvents + [event];
      if |replayEvents| >= FLUSH_AT {
        FlushReplays(m);
        LeftoverNext(m.burst, 0);
      }
      capped := |replayEvents| > MAX_REPLAY_BUFFER;
      replayEvents := WithinCap(replayEvents);
    }

    /** A usage event: `trackPageView`, `trackInteraction` and `trackError` down to the dispatch. */
    method Track(m: Moment) returns (sent: Option<Sent>)
      requires Legal(m) && Valid() && Accounted()
      modifies this, storage
      ensures Valid() && isRecording == old(isRecording) && Keeps()
      ensures old(Enabled()) ==> dropped == old(dropped)
      ensures var s := Ensured(old(storage.session), m.now, m.minted);
              && sent == (if old(Enabled()) then Some(Sent(s.id, m.now)) else None)
              && storage.session == if old(Enabled()) then s.(lastAct := Some(m.now)) else s
    {
      hide Balanced, Leftover, Ensured;
      LeftoverNext(m.burst, 0);
      var id := EnsureSessionCurrent(true, m);
      if dispatchDisabled || !hasEndpoint { return None; }
      storage.session := storage.session.(lastAct := Some(m.now));
      sent := Some(Sent(id, m.now));
    }
  }

  /** Stopping loses no event exactly if nothing is buffered, or uploads are possible and the flush
      does not restart the recorder, or what the restarted recorder emits at once fills whole uploads.
      A recorder that is restarted with one event buffered, and emits one, loses that one. */
  lemma {:induction false} StopLosesNothingExactly(buffered: seq<int>, enabled: bool, restarts: bool, burst: seq<int>)
    ensures LostByStop(buffered, enabled, restarts, burst) == [] <==>
            buffered == [] || (enabled && (!restarts || |burst| % 50 == 0))
    ensures LostByStop([1], true, true, [2]) == [2]
  {
    assert Leftover([2]) == [2];
  }

  // ---------------------------------------------------------------- any sequence of calls

  /** `Unauthorized` is a 401 response; `Elsewhere` is anyone else writing to the same storage. */
  datatype Call =
    | Start | Stop | TrackEvent | FlushNow | EmitEvent(event: int) | GetSessionId
    | Unauthorized | Elsewhere(session: Session)

  /** One call; the result is the usage event it sends, if any, and whether the hard cap dropped events. */
  method Perform(t: Tracker, call: Call, m: Moment) returns (sent: Option<Sent>, capped: bool)
    requires t.Valid() && t.Accounted() && Legal(m)
    modifies t, t.storage
    ensures t.Valid() && t.Accounted() && t.inHand == old(t.inHand) && old(t.uploads) <= t.uploads && !capped
    ensures sent.Some? <==> call.TrackEvent? && old(t.Enabled())
    ensures !call.Elsewhere? ==> IsStep(old(t.storage.session), t.storage.session, sent, m)
  {
    hide Ensured, Balanced, IsStep;
    sent, capped := None, false;
    StepsAre(t.storage.session, m);
    match call
    case Start => t.StartReplay(m);
    case Stop => t.StopReplay(m);
    case TrackEvent => sent := t.Track(m);
    case FlushNow =>
      LeftoverNext(m.burst, 0);
      t.FlushReplays(m);
    case EmitEvent(event) =>
      if t.isRecording { capped := t.Emit(event, m); }
    case GetSessionId => var _ := t.SessionId(m.minted);
    case Unauthorized => t.dispatchDisabled := true;
    case Elsewhere(session) => t.storage.session := session;
  }

  /** After any sequence of calls, each at its own moment and whatever else writes to the storage: at
      most one recorder is live, the flags agree, fewer than 50 events wait, the hard cap never had to
      drop any, and every event emitted was uploaded once, waits, or was thrown away by a stop or
      while uploads are disabled. */
  method AnySequence(t: Tracker, calls: seq<(Call, Moment)>) returns (capped: bool)
    requires t.Valid() && t.Accounted() && t.inHand == []
    requires forall i :: 0 <= i < |calls| ==> Legal(calls[i].1)
    modifies t, t.storage
    ensures t.Valid() && t.live <= 1 && !capped
    ensures multiset(t.emitted) == Uploaded(t.uploads) + multiset(t.replayEvents) + multiset(t.dropped)
  {
    capped := false;
    for i := 0 to |calls|
      invariant t.Valid() && t.Accounted() && t.inHand == [] && !capped
    {
      var _, c := Perform(t, calls[i].0, calls[i].1);
      capped := capped || c;
    }
  }

  // ---------------------------------------------------------------- many trackers on one storage

  /** From session `s` to `u`, sending `sent`, is a step of the session machine, or none. */
  ghost predicate IsStep(s: Session, u: Session, sent: Option<Sent>, m: Moment) {
    || (sent.None? && u == s)
    || (exists e :: StepAt(e, m) && Moves(e, s, u, sent))
  }

  lemma StepsAre(s: Session, m: Moment)
    ensures IsStep(s, s, None, m) && IsStep(s, Ensured(s, m.now, m.minted), None, m)
    ensures IsStep(s, if s.id == "" then s.(id := m.minted) else s, None, m)
    ensures var u := Ensured(s, m.now, m.minted); IsStep(s, u.(lastAct := Some(m.now)), Some(Sent(u.id, m.now)), m)
  {
    hide Ensured;
    var u := Ensured(s, m.now, m.minted);
    assert StepAt(Touch(m.now, m.minted), m) && Moves(Touch(m.now, m.minted), s, u, None);
    assert StepAt(Send(m.now, m.minted), m)
        && Moves(Send(m.now, m.minted), s, u.(lastAct := Some(m.now)), Some(Sent(u.id, m.now)));
    assert StepAt(ReadId(m.minted), m) && Moves(ReadId(m.minted), s, if s.id == "" then s.(id := m.minted) else s, None);
  }

  predicate StepAt(e: Step, m: Moment) {
    e == Send(m.now, m.minted) || e == Touch(m.now, m.minted) || e == ReadId(m.minted)
  }

  /** What step `e` does to the storage and sends. */
  ghost predicate Moves(e: Step, s: Session, u: Session, sent: Option<Sent>) {
    forall w: World :: w.store == s ==>
      && Next(w, e).store == u
      && Next(w, e).log == if sent.Some? then w.log + [sent.value] else w.log
  }

  /** Moments do not go back, and the ids they would create are all different. */
  ghost predicate Successive(calls: seq<(nat, Call, Moment)>) {
    && (forall i :: 0 <= i < |calls| ==> Legal(calls[i].2) && !calls[i].1.Elsewhere?)
    && (forall i, j :: 0 <= i < j < |calls| ==>
          calls[i].2.now <= calls[j].2.now && calls[i].2.minted != calls[j].2.minted)
  }

  /** The machine stands where the storage stands, and knows only ids and times from before call `i`. */
  ghost predicate Follows(es: seq<Step>, session: Session, log: seq<Sent>, calls: seq<(nat, Call, Moment)>, i: nat)
    requires i <= |calls|
  {
    var w := Run(es);
    && w.store == session && w.log == log
    && (forall id :: id in w.used ==> exists k :: 0 <= k < i && calls[k].2.minted == id)
    && (w.now <= 1 || exists k :: 0 <= k < i && w.now == calls[k].2.now)
  }

  lemma {:induction false} FollowOn(es: seq<Step>, s: Session, log: seq<Sent>, calls: seq<(nat, Call, Moment)>, i: nat,
                                    u: Session, sent: Option<Sent>)
    returns (fs: seq<Step>)
    requires Successive(calls) && i < |calls| && Follows(es, s, log, calls, i) && IsStep(s, u, sent, calls[i].2)
    ensures Follows(fs, u, if sent.Some? then log + [sent.value] else log, calls, i + 1)
  {
    hide Run, Next, Moves;
    var m, w := calls[i].2, Run(es);
    if sent.None? && u == s {
      fs := es;
    } else {
      var e :| StepAt(e, m) && Moves(e, s, u, sent);
      fs := es + [e];
      assert m.minted !in w.used;
      assert w.now <= m.now;
      RunOn(es, e);
      MovesNext(w, e, u, sent);
      NextKnows(w, e, m);
    }
  }

  lemma {:induction false} RunOn(es: seq<Step>, e: Step)
    ensures Run(es + [e]) == if Possible(Run(es), e) then Next(Run(es), e) else Run(es)
  {
    assert (es + [e])[..|es|] == es;
  }

  lemma MovesNext(w: World, e: Step, u: Session, sent: Option<Sent>)
    requires Moves(e, w.store, u, sent)
    ensures Next(w, e).store == u && Next(w, e).log == if sent.Some? then w.log + [sent.value] else w.log
  {
  }

  lemma NextKnows(w: World, e: Step, m: Moment)
    requires StepAt(e, m)
    ensures Next(w, e).used == w.used + {m.minted}
    ensures Next(w, e).now == w.now || Next(w, e).now == m.now
  {
  }

  /** Any calls on any trackers that share a storage, one after the other, are a run of the session
      machine: its bounds hold of the usage events that are really sent. */
  method SharedSequence(storage: Storage, trackers: seq<Tracker>, calls: seq<(nat, Call, Moment)>)
    returns (log: seq<Sent>, ghost es: seq<Step>)
    requires storage.session == NO_SESSION && Successive(calls)
    requires forall t :: t in trackers ==> t.storage == storage && t.Valid() && t.Accounted()
    requires forall i :: 0 <= i < |calls| ==> calls[i].0 < |trackers|
    modifies storage, set t | t in trackers
    ensures Run(es).log == log && Run(es).store == storage.session
    ensures WithinHour(log) && NeverIdle(log)
    ensures var sends := SendEras(Happened(es));
            |log| == |sends| && forall i, j :: 0 <= i < |log| && 0 <= j < |log| ==>
              (log[i].session == log[j].session <==> sends[i].0 == sends[j].0)
    ensures forall t :: t in trackers ==> t.Valid() && t.Accounted()
  {
    log, es := [], [];
    for i := 0 to |calls|
      invariant forall t :: t in trackers ==> t.storage == storage && t.Valid() && t.Accounted()
      invariant Follows(es, storage.session, log, calls, i)
    {
      var t := trackers[calls[i].0];
      ghost var s := storage.session;
      var sent, _ := Perform(t, calls[i].1, calls[i].2);
      es := FollowOn(es, s, log, calls, i, storage.session, sent);
      if sent.Some? { log := log + [sent.value]; }
    }
    SessionBounds(es);
    SameSessionExactly(es);
  }
}
