/**
 The certificate in the ssh agent (commands/login.go): added at login and at every refresh, with a
 lifetime, after removing the one added before. The agent is a state machine; the results hold after
 every run of adds that are skipped, fail or succeed, of passing time, and of what other programs do.
 */
module Agent {
  import opened Text

  // ---------------------------------------------------------------- the lifetime

  const SECOND := 1_000_000_000        // a time.Second in nanoseconds
  const MAX_UINT32 := 0xFFFF_FFFF
  const MAX_INT64 := 0x7FFF_FFFF_FFFF_FFFF
  const DEFAULT_LIFETIME := 86400

  /** time.ParseDuration (nanoseconds) and strconv.ParseInt. */
  datatype Parsers = Parsers(duration: string -> Option<int>, integer: string -> Option<int>)

  /** parseDurationOrSeconds, in nanoseconds. */
  function DurationOrSeconds(parsers: Parsers, text: string): Option<int>
  {
    var s := TrimSpace(text);
    if s == "" then None
    else if parsers.duration(s).Some? then parsers.duration(s)
    else
      match parsers.integer(s)
      case None => None
      case Some(sec) => if sec < 0 || sec > MAX_UINT32 then None else Some(sec * SECOND)
  }

  /** resolveAgentLifetimeSecs: the flag, else the client config, else the default. */
  function Lifetime(parsers: Parsers, flag: string, config: string): (secs: Option<nat>)
    ensures secs.Some? ==> 1 <= secs.value <= MAX_UINT32
  {
    var value := if flag != "" then flag else config;
    if value == "" then Some(DEFAULT_LIFETIME)
    else
      match DurationOrSeconds(parsers, value)
      case None => None
      case Some(d) => if d < SECOND || d > MAX_UINT32 * SECOND then None else Some(d / SECOND)
  }

  /** A plain number of seconds is used as it is, exactly if it is in range; nothing overflows 64 bits. */
  lemma SecondsAreKept(parsers: Parsers, flag: string, config: string, sec: int)
    requires var value := if flag != "" then flag else config;
             && TrimSpace(value) != "" && parsers.duration(TrimSpace(value)) == None
             && parsers.integer(TrimSpace(value)) == Some(sec)
    ensures Lifetime(parsers, flag, config) == if 1 <= sec <= MAX_UINT32 then Some(sec) else None
    ensures 0 <= sec <= MAX_UINT32 ==> sec * SECOND <= MAX_INT64
  {
    hide TrimSpace;
    var value := if flag != "" then flag else config;
    assert value != "" by { NothingToTrim(); }
    if 0 <= sec <= MAX_UINT32 {
      assert DurationOrSeconds(parsers, value) == Some(sec * SECOND);
      assert sec * SECOND / SECOND == sec;
    } else {
      assert DurationOrSeconds(parsers, value) == None;
    }
  }

  /**
   The flag comes before the config and both before a day; durations count whole seconds from one to
   the 32-bit maximum.
   */
  lemma WhichLifetime(parsers: Parsers, flag: string, config: string)
    ensures flag == "" && config == "" ==> Lifetime(parsers, flag, config) == Some(86400)
    ensures flag != "" ==> Lifetime(parsers, flag, config) == Lifetime(parsers, flag, "")
    ensures flag == "" ==> Lifetime(parsers, flag, config) == Lifetime(parsers, config, "")
    ensures var s := TrimSpace(flag);
            && (flag != "" && s == "" ==> Lifetime(parsers, flag, config) == None)
            && (s != "" && parsers.duration(s).Some? ==>
                  var d := parsers.duration(s).value;
                  Lifetime(parsers, flag, config) ==
                  if 1_000_000_000 <= d <= 4_294_967_295_000_000_000 then Some(d / 1_000_000_000) else None)
            && (s != "" && parsers.duration(s) == None && parsers.integer(s) == None ==>
                  Lifetime(parsers, flag, config) == None)
  {
    NothingToTrim();
    hide TrimSpace;
  }

  lemma NothingToTrim()
    ensures TrimSpace("") == ""
  {
  }

  // ---------------------------------------------------------------- the agent

  /** A certificate in the agent; `ours` if this process added it last. */
  datatype Held = Held(added: nat, expiry: nat, ours: bool)

  datatype Reply = Added | Rejected | LostReply

  /** How an attempt to reach the agent goes. */
  datatype Try = Skipped | Reached(removeWorks: bool, reply: Reply)

  datatype Event =
    | Offer(cert: int, attempt: Try)
    | Tick(secs: nat)
    | ForeignAdd(cert: int, secs: nat)
    | ForeignRemove(cert: int)

  datatype State = State(now: nat, held: map<int, Held>, agentCert: Option<int>)

  /** What time drops. */
  function Alive(held: map<int, Held>, now: nat): map<int, Held>
  {
    map cert | cert in held && now < held[cert].expiry :: held[cert]
  }

  function Removed(st: State, removeWorks: bool): map<int, Held>
  {
    if removeWorks && st.agentCert.Some? then st.held - {st.agentCert.value} else st.held
  }

  function Step(st: State, event: Event, lifetime: Option<nat>): State
  {
    match event
    case Tick(secs) => st.(now := st.now + secs, held := Alive(st.held, st.now + secs))
    case ForeignRemove(cert) => st.(held := st.held - {cert})
    case ForeignAdd(cert, secs) => st.(held := st.held[cert := Held(st.now, st.now + secs + 1, false)])
    case Offer(cert, attempt) =>
      if lifetime == None || attempt.Skipped? then st
      else
        var held := Removed(st, attempt.removeWorks);
        var entry := Held(st.now, st.now + lifetime.value, true);
        match attempt.reply
        case Rejected => st.(held := held)
        case LostReply => st.(held := held[cert := entry])
        case Added => st.(held := held[cert := entry], agentCert := Some(cert))
  }

  class AgentSession {
    const parsers: Parsers
    const flag: string
    const config: string
    const addKeyToAgent: bool
    const printKey: bool
    var st: State

    constructor (parsers: Parsers, flag: string, config: string, addKeyToAgent: bool, printKey: bool,
                 held: map<int, Held>)
      ensures this.parsers == parsers && this.flag == flag && this.config == config
      ensures this.addKeyToAgent == addKeyToAgent && this.printKey == printKey
      ensures st == State(0, held, None)
    {
      this.parsers, this.flag, this.config := parsers, flag, config;
      this.addKeyToAgent, this.printKey, st := addKeyToAgent, printKey, State(0, held, None);
    }

    function Secs(): Option<nat> { Lifetime(parsers, flag, config) }

    /** Time passes, and the agent drops what has expired. */
    method Wait(secs: nat)
      modifies this
      ensures st == Step(old(st), Tick(secs), Secs())
    {
      st := st.(now := st.now + secs, held := Alive(st.held, st.now + secs));
    }

    /** The gate in front of the agent and, behind it, one add. */
    method MaybeAddCertToAgent(cert: int, attempt: Try)
      modifies this
      ensures st == if addKeyToAgent && !printKey
                    then Step(old(st), Offer(cert, attempt), Secs()) else old(st)
    {
      if addKeyToAgent && !printKey {
        AddCertToAgent(cert, attempt);
      }
    }

    method AddCertToAgent(cert: int, attempt: Try)
      modifies this
      ensures st == Step(old(st), Offer(cert, attempt), Secs())
    {
      var lifetime := Lifetime(parsers, flag, config);
      if lifetime == None {
        return;
      }
      match attempt {
        case Skipped => return;
        case Reached(removeWorks, reply) =>
          if st.agentCert.Some? && removeWorks {
            st := st.(held := st.held - {st.agentCert.value});
          }
          var entry := Held(st.now, st.now + lifetime.value, true);
          match reply {
            case Rejected => return;
            case LostReply =>
              st := st.(held := st.held[cert := entry]);
              return;
            case Added =>
              st := st.(held := st.held[cert := entry]);
          }
          st := st.(agentCert := Some(cert));
      }
    }
  }

  // ---------------------------------------------------------------- what a step does

  /** An offer touches the remembered certificate and the one offered, and no other, ours or not. */
  lemma OthersSurviveOffers(st: State, cert: int, attempt: Try, lifetime: Option<nat>, other: int)
    requires other != cert && st.agentCert != Some(other)
    ensures var next := Step(st, Offer(cert, attempt), lifetime);
            (other in next.held <==> other in st.held) && (other in next.held ==> next.held[other] == st.held[other])
  {
  }

  /** What becomes of the remembered certificate and the one offered; without a lifetime or unreached, nothing. */
  lemma WhatOffersDo(st: State, cert: int, attempt: Try, lifetime: Option<nat>)
    ensures var next := Step(st, Offer(cert, attempt), lifetime);
            && next.now == st.now
            && (lifetime == None || attempt.Skipped? ==> next == st)
            && (lifetime.Some? && attempt.Reached? ==>
                  && (attempt.reply.Added? ==> next.agentCert == Some(cert))
                  && (!attempt.reply.Added? ==> next.agentCert == st.agentCert)
                  && (!attempt.reply.Rejected? ==>
                        cert in next.held && next.held[cert] == Held(st.now, st.now + lifetime.value, true))
                  && (attempt.reply.Rejected? && st.agentCert != Some(cert) ==>
                        (cert in next.held <==> cert in st.held))
                  && (st.agentCert.Some? && st.agentCert.value != cert ==>
                        (st.agentCert.value in next.held <==> st.agentCert.value in st.held && !attempt.removeWorks)))
  {
  }

  /** Time drops exactly what has expired. */
  lemma WhatTimeDoes(st: State, secs: nat, lifetime: Option<nat>, cert: int)
    ensures var next := Step(st, Tick(secs), lifetime);
            && next.now == st.now + secs && next.agentCert == st.agentCert
            && (cert in next.held <==> cert in st.held && st.now + secs < st.held[cert].expiry)
            && (cert in next.held ==> next.held[cert] == st.held[cert])
  {
  }

  // ---------------------------------------------------------------- all runs

  function Run(st: State, events: seq<Event>, lifetime: Option<nat>): State
  {
    if events == [] then st else Step(Run(st, events[..|events| - 1], lifetime), events[|events| - 1], lifetime)
  }

  lemma {:induction false} RunAppend(st: State, a: seq<Event>, b: seq<Event>, lifetime: Option<nat>)
    ensures Run(st, a + b, lifetime) == Run(Run(st, a, lifetime), b, lifetime)
  {
    hide Step;
    if b == [] {
      assert a + b == a;
    } else {
      assert (a + b)[..|a + b| - 1] == a + b[..|b| - 1];
      RunAppend(st, a, b[..|b| - 1], lifetime);
    }
  }

  lemma RunOne(st: State, event: Event, lifetime: Option<nat>)
    ensures Run(st, [event], lifetime) == Step(st, event, lifetime)
  {
    assert [event][..0] == [];
  }

  /** Every certificate of ours has a finite lifetime of at least a second, and time has not passed it. */
  predicate AreTimed(st: State, lifetime: Option<nat>)
  {
    forall cert <- st.held :: st.held[cert].ours ==>
      && lifetime.Some? && 1 <= lifetime.value <= MAX_UINT32
      && st.held[cert].expiry == st.held[cert].added + lifetime.value
      && st.held[cert].added <= st.now < st.held[cert].expiry
  }

  /** The agent holds no certificate of ours but the remembered one. */
  predicate HoldsAtMostOne(st: State)
  {
    forall cert <- st.held :: st.held[cert].ours ==> st.agentCert == Some(cert)
  }

  /** The agent carries out every removal and loses no reply. */
  predicate IsDependable(event: Event)
  {
    event.Offer? && event.attempt.Reached? ==> event.attempt.removeWorks && !event.attempt.reply.LostReply?
  }

  predicate IsStart(st: State)
  {
    st.agentCert == None && forall cert <- st.held :: !st.held[cert].ours
  }

  /** Whatever the agent does, every certificate this process added has its finite lifetime. */
  lemma {:induction false} AlwaysTimed(st: State, events: seq<Event>, parsers: Parsers, flag: string, config: string)
    requires IsStart(st)
    ensures AreTimed(Run(st, events, Lifetime(parsers, flag, config)), Lifetime(parsers, flag, config))
  {
    var lifetime := Lifetime(parsers, flag, config);
    hide Lifetime;
    if events != [] {
      var n := |events| - 1;
      AlwaysTimed(st, events[..n], parsers, flag, config);
      StepTimed(Run(st, events[..n], lifetime), events[n], lifetime);
    }
  }

  lemma StepTimed(st: State, event: Event, lifetime: Option<nat>)
    requires AreTimed(st, lifetime) && (lifetime.Some? ==> 1 <= lifetime.value <= MAX_UINT32)
    ensures AreTimed(Step(st, event, lifetime), lifetime)
  {
    hide Step;
    var next := Step(st, event, lifetime);
    forall cert <- next.held | next.held[cert].ours
      ensures && lifetime.Some? && 1 <= lifetime.value <= MAX_UINT32
              && next.held[cert].expiry == next.held[cert].added + lifetime.value
              && next.held[cert].added <= next.now < next.held[cert].expiry
    {
      StepHeld(st, event, lifetime, cert);
    }
  }

  /** A certificate of ours was held before or is new. */
  lemma StepHeld(st: State, event: Event, lifetime: Option<nat>, cert: int)
    requires cert in Step(st, event, lifetime).held && Step(st, event, lifetime).held[cert].ours
    ensures var next := Step(st, event, lifetime);
            || (cert in st.held && next.held[cert] == st.held[cert] && st.now <= next.now &&
               (event.Tick? || next.now == st.now)
                && (event.Tick? ==> next.now < st.held[cert].expiry))
            || (lifetime.Some? && next.held[cert] == Held(st.now, st.now + lifetime.value, true) && next.now == st.now)
  {
  }

  /**
   What keeps the agent from holding two certificates of ours: an add that the agent accepts needs
   the remembered certificate gone, and one whose reply is lost must be of the remembered one.
   */
  predicate KeepsOne(st: State, event: Event, lifetime: Option<nat>)
  {
    event.Offer? && event.attempt.Reached? && lifetime.Some? ==>
      match event.attempt.reply
      case Rejected => true
      case LostReply => st.agentCert == Some(event.cert)
      case Added =>
        || event.attempt.removeWorks || st.agentCert == None || st.agentCert == Some(event.cert)
        || st.agentCert.value !in st.held || !st.held[st.agentCert.value].ours
  }

  lemma StepKeepsOne(st: State, event: Event, lifetime: Option<nat>)
    requires HoldsAtMostOne(st)
    ensures HoldsAtMostOne(Step(st, event, lifetime)) <==> KeepsOne(st, event, lifetime)
  {
    var next := Step(st, event, lifetime);
    if event.Offer? && event.attempt.Reached? && lifetime.Some? {
      if event.attempt.reply.LostReply? {
        assert event.cert in next.held && next.held[event.cert].ours;
      } else if event.attempt.reply.Added? && !KeepsOne(st, event, lifetime) {
        var before := st.agentCert.value;
        assert before != event.cert && before in next.held && next.held[before].ours;
        assert next.agentCert != Some(before);
      }
    }
  }

  lemma RunStep(st: State, events: seq<Event>, n: nat, lifetime: Option<nat>)
    requires n < |events|
    ensures Run(st, events[..n + 1], lifetime) == Step(Run(st, events[..n], lifetime), events[n], lifetime)
  {
    assert events[..n + 1][..n] == events[..n];
  }

  /** A run never leaves more than the remembered certificate exactly if each of its steps keeps to the rule above. */
  lemma {:induction false} OneThroughout(st: State, events: seq<Event>, lifetime: Option<nat>, n: nat)
    requires IsStart(st) && n <= |events|
    ensures (forall i :: 0 <= i <= n ==> HoldsAtMostOne(Run(st, events[..i], lifetime))) <==>
            (forall i :: 0 <= i < n ==> KeepsOne(Run(st, events[..i], lifetime), events[i], lifetime))
  {
    hide HoldsAtMostOne, KeepsOne, Step;
    if n == 0 {
      assert HoldsAtMostOne(Run(st, events[..0], lifetime)) by { StartHoldsNone(st, events, lifetime); }
    } else {
      OneThroughout(st, events, lifetime, n - 1);
      RunStep(st, events, n - 1, lifetime);
      if HoldsAtMostOne(Run(st, events[..n - 1], lifetime)) {
        StepKeepsOne(Run(st, events[..n - 1], lifetime), events[n - 1], lifetime);
      }
    }
  }

  lemma StartHoldsNone(st: State, events: seq<Event>, lifetime: Option<nat>)
    requires IsStart(st)
    ensures HoldsAtMostOne(Run(st, events[..0], lifetime))
  {
    assert events[..0] == [];
  }

  lemma DependableKeepsOne(st: State, event: Event, lifetime: Option<nat>)
    requires IsDependable(event)
    ensures KeepsOne(st, event, lifetime)
  {
  }

  /** So with a dependable agent it never does. */
  lemma {:induction false} NeverMoreThanOne(st: State, events: seq<Event>, lifetime: Option<nat>)
    requires IsStart(st) && forall i :: 0 <= i < |events| ==> IsDependable(events[i])
    ensures HoldsAtMostOne(Run(st, events, lifetime))
  {
    hide HoldsAtMostOne, KeepsOne, Step, IsDependable;
    forall i | 0 <= i < |events| ensures KeepsOne(Run(st, events[..i], lifetime), events[i], lifetime) {
      DependableKeepsOne(Run(st, events[..i], lifetime), events[i], lifetime);
    }
    OneThroughout(st, events, lifetime, |events|);
    assert events[..|events|] == events;
  }

  /** Once no add follows for a lifetime, nothing of ours is left, dependable agent or not. */
  lemma DrainsInTime(st: State, events: seq<Event>, parsers: Parsers, flag: string, config: string, secs: nat)
    requires IsStart(st) && Lifetime(parsers, flag, config).Some? && Lifetime(parsers, flag, config).value <= secs
    ensures var end := Run(st, events + [Tick(secs)], Lifetime(parsers, flag, config));
            forall cert <- end.held :: !end.held[cert].ours
  {
    var lifetime := Lifetime(parsers, flag, config);
    AlwaysTimed(st, events, parsers, flag, config);
    assert (events + [Tick(secs)])[..|events|] == events;
    assert Run(st, events + [Tick(secs)], lifetime) == Step(Run(st, events, lifetime), Tick(secs), lifetime);
  }

  /** A reply lost on its way back leaves two certificates of ours, one of them forgotten. */
  lemma LostReplyLeavesTwo(lifetime: nat)
    ensures var events := [Offer(1, Reached(true, Added)), Offer(2, Reached(true, LostReply)),
                           Offer(3, Reached(true, Added))];
            var end := Run(State(0, map[], None), events, Some(lifetime));
            2 in end.held && 3 in end.held && end.held[2].ours && end.held[3].ours
  {
    var e1, e2, e3 := Offer(1, Reached(true, Added)), Offer(2, Reached(true, LostReply)),
        Offer(3, Reached(true, Added));
    ThreeSteps(State(0, map[], None), e1, e2, e3, Some(lifetime));
  }

  /** So does a removal that does not take effect. */
  lemma FailedRemoveLeavesTwo(lifetime: nat)
    ensures var events := [Offer(1, Reached(true, Added)), Offer(2, Reached(false, Added)), Tick(0)];
            var end := Run(State(0, map[], None), events, Some(lifetime + 1));
            1 in end.held && 2 in end.held && end.held[1].ours && end.held[2].ours
  {
    ThreeSteps(State(0, map[], None), Offer(1, Reached(true, Added)), Offer(2, Reached(false, Added)), Tick(0),
               Some(lifetime + 1));
  }

  lemma ThreeSteps(st: State, a: Event, b: Event, c: Event, lifetime: Option<nat>)
    ensures Run(st, [a, b, c], lifetime) == Step(Step(Step(st, a, lifetime), b, lifetime), c, lifetime)
  {
    hide Step;
    assert [a, b, c][..2] == [a, b] && [a, b][..1] == [a] && [a][..0] == [];
    assert Run(st, [a], lifetime) == Step(st, a, lifetime);
    assert Run(st, [a, b], lifetime) == Step(Step(st, a, lifetime), b, lifetime);
  }
}
