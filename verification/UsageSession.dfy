/** The browser session kept in session storage: when it rotates, and what that bounds. */
module UsageSession {
  import opened Options

  const IDLE_LIMIT: nat := 30 * 60 * 1000
  const HARD_LIMIT: nat := 60 * 60 * 1000

  /** The three storage keys of one prefix; an empty string counts as missing. */
  datatype Session = Session(id: string, start: Option<nat>, lastAct: Option<nat>)

  const NO_SESSION := Session("", None, None)

  /** 30 minutes without activity, or 60 minutes since the start. */
  predicate Expired(s: Session, now: nat) {
    || (s.lastAct.Some? && s.lastAct.value > 0 && now - s.lastAct.value > IDLE_LIMIT)
    || (s.start.Some? && s.start.value > 0 && now - s.start.value > HARD_LIMIT)
  }

  /** `checkAndRotateSession` */
  function Checked(s: Session, now: nat): Session {
    var t := if Expired(s, now) then NO_SESSION else s;
    if t.start.None? then t.(start := Some(now)) else t
  }

  /** `ensureSessionCurrent`: checks, and creates an id if there is none. */
  function Ensured(s: Session, now: nat, minted: string): Session {
    var t := Checked(s, now);
    if t.id == "" then t.(id := minted) else t
  }

  /** A second check at the same instant changes nothing. */
  lemma {:induction false} EnsuredTwice(s: Session, now: nat, minted: string, other: string)
    requires minted != "" && now > 0
    ensures Ensured(Ensured(s, now, minted), now, other) == Ensured(s, now, minted)
    ensures !Expired(Ensured(s, now, minted), now)
  {
  }

  // ---------------------------------------------------------------- runs

  /** What the trackers that share a prefix do, in any order. */
  datatype Step =
    | Send(now: nat, minted: string)    // a usage event is dispatched
    | Touch(now: nat, minted: string)   // replay traffic, or an event that is not dispatched
    | ReadId(minted: string)            // the public getter

  datatype Sent = Sent(session: string, at: nat)

  /** The storage, the events sent so far, the ids ever created, and the latest clock reading. */
  datatype World = World(store: Session, log: seq<Sent>, used: set<string>, now: nat)

  const BEGIN := World(NO_SESSION, [], {}, 1)

  /** The clock does not go back, and created ids are new. */
  predicate Possible(w: World, e: Step) {
    && e.minted != "" && e.minted !in w.used
    && (e.Send? || e.Touch? ==> w.now <= e.now)
  }

  function Next(w: World, e: Step): World {
    match e
    case Send(now, minted) =>
      var s := Ensured(w.store, now, minted);
      World(s.(lastAct := Some(now)), w.log + [Sent(s.id, now)], w.used + {minted}, now)
    case Touch(now, minted) => World(Ensured(w.store, now, minted), w.log, w.used + {minted}, now)
    case ReadId(minted) =>
      w.(store := if w.store.id == "" then w.store.(id := minted) else w.store, used := w.used + {minted})
  }

  /** A run is any sequence of steps; one that cannot happen where it stands is passed over. */
  function Run(es: seq<Step>): World {
    if es == [] then BEGIN
    else
      var w := Run(es[..|es| - 1]);
      if Possible(w, es[|es| - 1]) then Next(w, es[|es| - 1]) else w
  }

  // ---------------------------------------------------------------- bounds

  /** Events of one session lie within 60 minutes. */
  ghost predicate WithinHour(log: seq<Sent>) {
    forall i, j :: 0 <= i < j < |log| && log[i].session == log[j].session ==> log[j].at - log[i].at <= HARD_LIMIT
  }

  /** No later event of the same session comes before position `j`. */
  ghost predicate LastBefore(log: seq<Sent>, i: nat, j: nat)
    requires i < j <= |log|
  {
    forall k :: i < k < j ==> log[k].session != log[i].session
  }

  /** Consecutive events of one session are at most 30 minutes apart. */
  ghost predicate NeverIdle(log: seq<Sent>) {
    forall i, j :: 0 <= i < j < |log| && log[i].session == log[j].session && LastBefore(log, i, j) ==>
      log[j].at - log[i].at <= IDLE_LIMIT
  }

  ghost predicate Ordered(log: seq<Sent>, now: nat) {
    && (forall i, j :: 0 <= i < j < |log| ==> log[i].at <= log[j].at)
    && (forall i :: 0 <= i < |log| ==> log[i].at <= now)
  }

  /** The storage remembers enough about the current session: its start precedes its events, and its
      last activity is its last event. */
  ghost predicate Remembers(w: World) {
    && w.now > 0
    && (w.store.id != "" ==> w.store.id in w.used) && "" !in w.used
    && (w.store.start.Some? ==> 0 < w.store.start.value <= w.now)
    && (w.store.lastAct.Some? ==> 0 < w.store.lastAct.value <= w.now)
    && (forall i :: 0 <= i < |w.log| ==> w.log[i].session in w.used)
    && (forall i :: 0 <= i < |w.log| && w.log[i].session == w.store.id ==>
          && w.store.start.Some? && w.store.start.value <= w.log[i].at
          && (LastBefore(w.log, i, |w.log|) ==> w.store.lastAct == Some(w.log[i].at)))
  }

  ghost predicate Good(w: World) {
    Remembers(w) && Ordered(w.log, w.now) && WithinHour(w.log) && NeverIdle(w.log)
  }

  /** Checking keeps what is remembered: a session that is kept is kept whole. */
  lemma EnsuredRemembers(w: World, now: nat, minted: string)
    requires Good(w) && w.now <= now && minted != "" && minted !in w.used
    ensures Remembers(World(Ensured(w.store, now, minted), w.log, w.used + {minted}, now))
  {
  }

  /** An event added to a session that has not expired keeps both bounds. */
  lemma SendBounds(w: World, s: Session, now: nat)
    requires Good(w.(store := s, now := now)) && s.id != "" && !Expired(s, now)
    ensures WithinHour(w.log + [Sent(s.id, now)]) && NeverIdle(w.log + [Sent(s.id, now)])
  {
    var v := w.(store := s, now := now);
    var log := w.log + [Sent(s.id, now)];
    assert forall i :: 0 <= i < |w.log| ==> log[i] == w.log[i];
    forall i, j | 0 <= i < j < |log| && log[i].session == log[j].session && LastBefore(log, i, j)
      ensures log[j].at - log[i].at <= IDLE_LIMIT
    {
      if j < |w.log| {
        assert LastBefore(w.log, i, j);
      } else {
        assert LastBefore(w.log, i, |w.log|);
        assert v.store.lastAct == Some(w.log[i].at);
      }
    }
  }

  lemma SendRemembers(w: World, s: Session, now: nat)
    requires Good(w.(store := s, now := now)) && s.id != "" && s.start.Some?
    ensures Remembers(World(s.(lastAct := Some(now)), w.log + [Sent(s.id, now)], w.used, now))
    ensures Ordered(w.log + [Sent(s.id, now)], now)
  {
    var log := w.log + [Sent(s.id, now)];
    forall i | 0 <= i < |log| && log[i].session == s.id
      ensures s.start.value <= log[i].at && (LastBefore(log, i, |log|) ==> log[i].at == now)
    {
      if i < |w.log| { assert log[|w.log|].session == log[i].session; }
    }
  }

  lemma NextGood(w: World, e: Step)
    requires Good(w) && Possible(w, e)
    ensures Good(Next(w, e))
  {
    match e
    case Send(now, minted) =>
      EnsuredRemembers(w, now, minted);
      var s := Ensured(w.store, now, minted);
      EnsuredTwice(w.store, now, minted, minted);
      var v := World(w.store, w.log, w.used + {minted}, w.now);
      SendBounds(v, s, now);
      SendRemembers(v, s, now);
    case Touch(now, minted) => EnsuredRemembers(w, now, minted);
    case ReadId(minted) =>
  }

  /** In every run, with any number of trackers on one storage, the usage events sent under one
      session id lie within 60 minutes, and consecutive ones are at most 30 minutes apart. */
  lemma {:induction false} SessionBounds(es: seq<Step>)
    ensures WithinHour(Run(es).log) && NeverIdle(Run(es).log)
    ensures Good(Run(es))
    decreases |es|
  {
    if es != [] {
      SessionBounds(es[..|es| - 1]);
      var w := Run(es[..|es| - 1]);
      if Possible(w, es[|es| - 1]) { NextGood(w, es[|es| - 1]); }
    }
  }

  // ---------------------------------------------------------------- when two events share a session

  /** The steps of a run that were not passed over. */
  function Happened(es: seq<Step>): seq<Step> {
    if es == [] then []
    else
      var before, e := Happened(es[..|es| - 1]), es[|es| - 1];
      if Possible(Run(es[..|es| - 1]), e) then before + [e] else before
  }

  /** The rule without storage or ids: an era begins with a check of the session, and the next one begins
      with the first check more than 60 minutes later, or more than 30 after its last event. */
  datatype Era = NoEra | Era(number: nat, start: nat, lastSend: Option<nat>)

  predicate Over(era: Era, now: nat) {
    || era.NoEra?
    || now - era.start > 60 * 60 * 1000
    || (era.lastSend.Some? && now - era.lastSend.value > 30 * 60 * 1000)
  }

  function Continued(era: Era, now: nat): Era {
    if Over(era, now) then Era(if era.NoEra? then 0 else era.number + 1, now, None) else era
  }

  function WithSend(era: Era, now: nat): Era { if era.NoEra? then era else era.(lastSend := Some(now)) }

  /** Only the time before any check has no number. */
  function Number(era: Era): nat { if era.NoEra? then 0 else era.number }

  function EraAfter(hs: seq<Step>): Era {
    if hs == [] then NoEra
    else
      var era := EraAfter(hs[..|hs| - 1]);
      match hs[|hs| - 1]
      case Send(now, _) => WithSend(Continued(era, now), now)
      case Touch(now, _) => Continued(era, now)
      case ReadId(_) => era
  }

  /** For each event sent, the number of its era and its time. */
  function SendEras(hs: seq<Step>): seq<(nat, nat)> {
    if hs == [] then []
    else
      var before, e := SendEras(hs[..|hs| - 1]), hs[|hs| - 1];
      if e.Send? then before + [(Number(Continued(EraAfter(hs[..|hs| - 1]), e.now)), e.now)] else before
  }

  /** The storage holds the current era, and an id of its own for each era. */
  ghost predicate Keeps(w: World, era: Era, sends: seq<(nat, nat)>) {
    && |sends| == |w.log|
    && (if era.NoEra? then w.store.start == w.store.lastAct == None && w.log == []
        else w.store.id != "" && w.store.start == Some(era.start) && w.store.lastAct == era.lastSend)
    && (forall i :: 0 <= i < |w.log| ==> w.log[i].at == sends[i].1 && era.Era? && sends[i].0 <= era.number)
    && (forall i :: 0 <= i < |w.log| ==> (w.log[i].session == w.store.id <==> sends[i].0 == era.number))
    && (forall i, j :: 0 <= i < |w.log| && 0 <= j < |w.log| ==>
          (w.log[i].session == w.log[j].session <==> sends[i].0 == sends[j].0))
  }

  lemma {:induction false} ExpiredIsOver(w: World, era: Era, sends: seq<(nat, nat)>, now: nat)
    requires Good(w) && w.now <= now && Keeps(w, era, sends)
    ensures era.Era? ==> (Expired(w.store, now) <==> Over(era, now))
    ensures era.NoEra? ==> !Expired(w.store, now) && Over(era, now)
  {
  }

  lemma {:induction false} TouchKeeps(w: World, era: Era, sends: seq<(nat, nat)>, now: nat, minted: string)
    requires Good(w) && Possible(w, Touch(now, minted)) && Keeps(w, era, sends)
    ensures Keeps(Next(w, Touch(now, minted)), Continued(era, now), sends)
  {
    hide WithinHour, NeverIdle, Ordered, Expired, Over;
    ExpiredIsOver(w, era, sends, now);
    forall i | 0 <= i < |w.log| ensures w.log[i].session != minted { assert w.log[i].session in w.used; }
  }

  lemma {:induction false} SendKeeps(w: World, era: Era, sends: seq<(nat, nat)>, now: nat, minted: string)
    requires Good(w) && Possible(w, Send(now, minted)) && Keeps(w, era, sends)
    ensures Keeps(Next(w, Send(now, minted)), WithSend(Continued(era, now), now),
                  sends + [(Number(Continued(era, now)), now)])
  {
    hide WithinHour, NeverIdle, Ordered, Expired, Over, Good, Remembers;
    TouchKeeps(w, era, sends, now, minted);
  }

  lemma {:induction false} RunKeeps(es: seq<Step>)
    ensures Keeps(Run(es), EraAfter(Happened(es)), SendEras(Happened(es)))
    decreases |es|
  {
    hide Keeps, Good, Next, Continued;
    if es == [] {
      BeginKeeps();
    } else {
      var front, e := es[..|es| - 1], es[|es| - 1];
      RunKeeps(front);
      SessionBounds(front);
      var w, hs := Run(front), Happened(front);
      if Possible(w, e) {
        assert (hs + [e])[..|hs|] == hs;
        match e
        case Send(now, minted) => SendKeeps(w, EraAfter(hs), SendEras(hs), now, minted);
        case Touch(now, minted) => TouchKeeps(w, EraAfter(hs), SendEras(hs), now, minted);
        case ReadId(minted) => ReadKeeps(w, EraAfter(hs), SendEras(hs), minted);
      }
    }
  }

  lemma {:induction false} BeginKeeps()
    ensures Keeps(BEGIN, NoEra, [])
  {
  }

  lemma {:induction false} ReadKeeps(w: World, era: Era, sends: seq<(nat, nat)>, minted: string)
    requires Keeps(w, era, sends)
    ensures Keeps(Next(w, ReadId(minted)), era, sends)
  {
  }

  /** Over every run, two events carry the same session id exactly if the rule puts them in the same era. */
  lemma {:induction false} SameSessionExactly(es: seq<Step>)
    ensures var log, sends := Run(es).log, SendEras(Happened(es));
            && |log| == |sends|
            && (forall i :: 0 <= i < |log| ==> log[i].at == sends[i].1)
            && (forall i, j :: 0 <= i < |log| && 0 <= j < |log| ==>
                  (log[i].session == log[j].session <==> sends[i].0 == sends[j].0))
  {
    hide Run, Happened, SendEras, EraAfter;
    RunKeeps(es);
  }
}
