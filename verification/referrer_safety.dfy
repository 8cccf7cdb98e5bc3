/** What holds in every state that a started node can reach. */
module ReferrerSafety {
  import opened ReferrerProtocol

  /** An alarm of the current attempt is armed. */
  ghost predicate Armed(s: Node, timer: Timer, data: Data) {
    Alarm(timer, data) in s.alarms && s.alarms[Alarm(timer, data)] == s.cs
  }

  ghost predicate Searching(s: Node) {
    s.stage in {D2, D21, D3, D3_1}
  }

  /** u is the uplink: it answered in this attempt, and losing it will be noticed. */
  ghost predicate Watched(s: Node, u: Addr) {
    && s.uplink == {u} && (exists v :: Ponged(u, v) in s.ponged)
    && (Armed(s, T007, About(u)) || Armed(s, T009, About(u)))
  }

  /** No alarm has been armed by a later attempt, and all carry what their handlers expect. */
  ghost predicate AlarmsSound(s: Node) {
    forall a :: a in s.alarms ==> s.alarms[a] <= s.cs && (a.data.About? <==> HasAddress(a.timer))
  }

  /**
   * Searching, the node has no uplink and an alarm will start the next attempt; otherwise it is connected to
   * exactly one uplink. The remaining alarms are armed only in the stages that expect them.
   */
  ghost predicate Inv(s: Node) {
    && (if Searching(s) then s.uplink == {} && !s.established && Armed(s, T001, None)
        else s.stage == D6 && s.established && !Armed(s, T001, None) && exists u :: Watched(s, u))
    && (s.stage in {D3, D3_1} ==> s.ponged != {})
    && (Armed(s, T020, None) ==> s.stage == D3_1) && (Armed(s, T012, None) ==> s.stage == D6)
    && AlarmsSound(s)
  }

  lemma {:induction false} StartD2Keeps(s: Node)
    requires AlarmsSound(s)
    ensures Inv(StartD2(s)) && StartD2(s).cs == s.cs + 1 && StartD2(s).ponged == {}
  {
  }

  /** Establishing from a searching state in which no alarm of stage D3_1 is armed. */
  lemma {:induction false} EstablishKeeps(s: Node, p: Ponged)
    requires Searching(s) && s.uplink == {} && p in s.ponged && !Armed(s, T020, None) && AlarmsSound(s)
    ensures Inv(Establish(s, p.addr)) && Establish(s, p.addr).uplink == {p.addr}
  {
    var s' := Establish(s, p.addr);
    assert Ponged(p.addr, p.visible) in s'.ponged;
    assert Watched(s', p.addr);
  }

  lemma {:induction false} EstablishSomeKeeps(s: Node, s': Node)
    requires Searching(s) && s.uplink == {} && s.ponged != {} && !Armed(s, T020, None) && AlarmsSound(s)
      && EstablishesSome(s, s')
    ensures Inv(s')
  {
    forall p | p in s.ponged
      ensures Inv(Establish(s, p.addr))
    {
      EstablishKeeps(s, p);
    }
  }

  /** Changes that leave the attempt, its stage and the alarms that matter in it as they are. */
  ghost predicate SameAttempt(s: Node, s': Node) {
    && s'.cs == s.cs && s'.stage == s.stage && s'.uplink == s.uplink && s'.established == s.established
    && s.ponged <= s'.ponged
    && (Armed(s', T001, None) <==> Armed(s, T001, None))
    && (forall u :: u in s.uplink && (Armed(s, T007, About(u)) || Armed(s, T009, About(u))) ==>
          Armed(s', T007, About(u)) || Armed(s', T009, About(u)))
    && (Armed(s', T020, None) ==> Armed(s, T020, None)) && (Armed(s', T012, None) ==> s.stage == D6) && AlarmsSound(s')
  }

  lemma {:induction false} SameAttemptKeeps(s: Node, s': Node)
    requires Inv(s) && SameAttempt(s, s')
    ensures Inv(s')
  {
    if !Searching(s) {
      var u :| Watched(s, u);
      assert Watched(s', u);
    }
  }

  /** An alarm of an earlier attempt goes off, or one that its handler does not need to keep armed. */
  lemma {:induction false} AlarmGone(s: Node, alarm: Alarm)
    requires Inv(s) && alarm in s.alarms && (s.alarms[alarm] != s.cs || !(alarm.timer in {T001, T007, T009}))
    ensures SameAttempt(s, s.(alarms := s.alarms - {alarm}))
  {
  }

  lemma {:induction false} PingShortKeeps(s: Node, a: Addr, s1: Node, m: Msg)
    requires Inv(s) && s1 == s.(alarms := s.alarms - {Alarm(T007, About(a))})
    ensures Inv(Arm(Send(s1, m), T007, About(a)))
  {
    SameAttemptKeeps(s, Arm(Send(s1, m), T007, About(a)));
  }

  lemma {:induction false} ConnectedFacts(s: Node) returns (u: Addr)
    requires Inv(s) && s.stage == D6
    ensures Watched(s, u)
  {
    u :| Watched(s, u);
  }

  lemma {:induction false} OwnTickKeeps(s: Node, alarm: Alarm, s': Node, threw: bool)
    requires Inv(s) && alarm in s.alarms && s.alarms[alarm] == s.cs
    requires OnOwnTick(s.(alarms := s.alarms - {alarm}), alarm, s', threw)
    ensures Inv(s') && !threw
  {
    hide StartD2, StartD21, EstablishesSome, RegisterAt, LoseAndStop;
    var s1 := s.(alarms := s.alarms - {alarm});
    assert AlarmsSound(s1);
    match alarm.timer
    case T001 => StartD2Keeps(s1);
    case T002 =>
      if s.stage == D3 {
        EstablishSomeKeeps(s1, s');
      } else {
        AlarmGone(s, alarm);
        SameAttemptKeeps(s, s1);
      }
    case T012 =>
      var u := ConnectedFacts(s);
      RegisterKeeps(s, s1, u);
    case T020 => EstablishSomeKeeps(s1, s');
    case T040 =>
      AlarmGone(s, alarm);
      SameAttemptKeeps(s, s1);
      if s.stage == D2 {
        StartD21Keeps(s1);
      }
    case T007 => PingShortKeeps(s, alarm.data.addr, s1,
      Ping(alarm.data.addr, if alarm.data.addr in s.caps then PT_CAPS_SHORT else PT_MASTER_SHORT, s.cs));
    case T008 =>
      AlarmGone(s, alarm);
      SameAttemptKeeps(s, s1);
      SameAttemptKeeps(s1, s');
    case T009 => TimeoutKeeps(s, s1, alarm.data.addr);
  }

  lemma {:induction false} RegisterKeeps(s: Node, s1: Node, u: Addr)
    requires Inv(s) && s.stage == D6 && Watched(s, u) && s1 == s.(alarms := s.alarms - {Alarm(T012, None)})
    ensures Inv(RegisterAt(s1, u)) && s1.uplink == {u}
  {
    SameAttemptKeeps(s, RegisterAt(s1, u));
  }

  lemma {:induction false} StartD21Keeps(s: Node)
    requires Inv(s) && s.stage == D2
    ensures Inv(StartD21(s))
  {
  }

  lemma {:induction false} TimeoutKeeps(s: Node, s1: Node, a: Addr)
    requires Inv(s) && s1 == s.(alarms := s.alarms - {Alarm(T009, About(a))})
    ensures Inv(LoseAndStop(s1, a))
  {
    if a in s.uplink {
      StartD2Keeps(Stop(Stop(Stop(s1, T007, About(a)), T008, About(a)), T009, About(a)));
    } else {
      SameAttemptKeeps(s, s1);
    }
  }

  lemma {:induction false} TickKeeps(s: Node, alarm: Alarm, s': Node, threw: bool)
    requires Inv(s) && OnTick(s, alarm, s', threw)
    ensures Inv(s') && !threw
  {
    hide OnOwnTick, Inv, SameAttempt;
    if s.alarms[alarm] != s.cs {
      AlarmGone(s, alarm);
      SameAttemptKeeps(s, s.(alarms := s.alarms - {alarm}));
    } else {
      OwnTickKeeps(s, alarm, s', threw);
    }
  }

  lemma {:induction false} RecordKeeps(s: Node, addr: Addr, visible: Addr)
    requires Inv(s)
    ensures Inv(Record(s, addr, visible)) && Ponged(addr, visible) in Record(s, addr, visible).ponged
  {
    SameAttemptKeeps(s, Record(s, addr, visible));
  }

  lemma {:induction false} StartD3Keeps(s: Node, a: Addr)
    requires Inv(s) && s.stage in {D2, D21} && s.ponged != {}
    ensures Inv(StartD3(s, a))
  {
  }

  /** In stage D3_1, the waiting alarm is stopped when an uplink is taken. */
  lemma {:induction false} EstablishInD31Keeps(s: Node, p: Ponged)
    requires Inv(s) && s.stage == D3_1 && p in s.ponged
    ensures Inv(Establish(Stop(s, T020, None), p.addr))
  {
    EstablishKeeps(Stop(s, T020, None), p);
  }

  lemma {:induction false} PongInD31Keeps(s: Node, visible: Addr, s': Node, threw: bool)
    requires Inv(s) && s.stage == D3_1 && OnPongInD31(s, visible, s', threw)
    ensures Inv(s')
  {
    hide Inv, Establish, Stop;
    forall p | p in s.ponged
      ensures Inv(Establish(Stop(s, T020, None), p.addr))
    {
      EstablishInD31Keeps(s, p);
    }
  }

  lemma {:induction false} AwaitLongKeeps(s: Node, a: Addr)
    requires Inv(s)
    ensures Inv(AwaitLong(s, a))
  {
    SameAttemptKeeps(s, AwaitLong(s, a));
  }

  /** The alarms that AwaitLong arms. */
  predicate AwaitsLong(alarm: Alarm, a: Addr) {
    alarm in {Alarm(T008, About(a)), Alarm(T009, About(a))}
  }

  lemma {:induction false} AfterShortPongAlarms(s: Node, a: Addr, alarm: Alarm)
    ensures var s' := AfterShortPong(s, a);
      && (alarm in s'.alarms <==> (alarm in s.alarms && alarm != Alarm(T007, About(a))) || AwaitsLong(alarm, a))
      && (alarm in s'.alarms ==> s'.alarms[alarm] == if AwaitsLong(alarm, a) then s.cs else s.alarms[alarm])
  {
  }

  lemma {:induction false} ShortPongKeeps(s: Node, a: Addr)
    requires Inv(s)
    ensures Inv(AfterShortPong(s, a))
  {
    var s' := AfterShortPong(s, a);
    assert s'.cs == s.cs && s'.stage == s.stage && s'.uplink == s.uplink && s'.established == s.established
      && s'.ponged == s.ponged;
    forall alarm
      ensures alarm in s'.alarms <==> (alarm in s.alarms && alarm != Alarm(T007, About(a))) || AwaitsLong(alarm, a)
      ensures alarm in s'.alarms ==> s'.alarms[alarm] == if AwaitsLong(alarm, a) then s.cs else s.alarms[alarm]
    {
      AfterShortPongAlarms(s, a, alarm);
    }
    SameAttemptKeeps(s, s');
  }

  lemma {:induction false} PongKeeps(s: Node, e: Event, s': Node, threw: bool)
    requires Inv(s) && e.Pong? && OnPong(s, e, s', threw)
    ensures Inv(s')
  {
    hide Inv, AwaitLong, AfterShortPong, StartD3, OnPongInD31, Stop;
    if !e.own && e.cs == s.cs {
      var s1 := Record(s, e.addr, e.visible);
      RecordKeeps(s, e.addr, e.visible);
      match e.pingType
      case PT_CACHED =>
        if (s1.stage == D2 && e.addr !in s1.caps) || (s1.stage == D21 && e.addr in s1.caps) {
          StartD3Keeps(s1, e.addr);
        } else if s1.stage == D3_1 {
          PongInD31Keeps(s1, e.visible, s', threw);
        }
      case PT_CAPS_SHORT => ShortPongKeeps(s1, e.addr);
      case PT_MASTER_SHORT => ShortPongKeeps(s1, e.addr);
      case PT_CAPS_LONG => AwaitLongKeeps(s1, e.addr);
      case PT_MASTER_LONG => AwaitLongKeeps(s1, e.addr);
    }
  }

  lemma {:induction false} ReferrersKeeps(s: Node, addresses: set<Addr>, s': Node)
    requires Inv(s) && OnReferrers(s, addresses, s')
    ensures Inv(s')
  {
    if s.stage == D3 {
      var s1 := Arm(Stop(s, T002, None), T001, None);
      if addresses == {} {
        EstablishSomeKeeps(s1, s');
      } else {
        WaitForPongsKeeps(s1, addresses);
      }
    }
  }

  lemma {:induction false} WaitForPongsKeeps(s: Node, addresses: set<Addr>)
    requires s.stage == D3 && s.uplink == {} && !s.established && Armed(s, T001, None) && s.ponged != {}
    requires !Armed(s, T012, None) && AlarmsSound(s)
    ensures Inv(Arm(PingAll(s, addresses).(stage := D3_1), T020, None))
  {
  }

  /** A lost connection starts exactly one new attempt if it was the uplink's, and none otherwise. */
  lemma {:induction false} DisconnectRestartsOnce(s: Node, a: Addr)
    requires Inv(s)
    ensures Inv(OnDisconnected(s, a))
    ensures OnDisconnected(s, a) == if a in s.uplink then StartD2(s) else s
    ensures OnDisconnected(s, a).cs == s.cs + if a in s.uplink then 1 else 0
  {
    if a in s.uplink {
      StartD2Keeps(s);
      StartD2Clears(s);
    }
  }

  lemma {:induction false} StartD2Clears(s: Node)
    ensures StartD2(s).uplink == {}
  {
  }

  /** Every event keeps the invariant; only a pong in stage D3_1 can make its handler fail. */
  lemma {:induction false} StepKeeps(s: Node, e: Event, s': Node, threw: bool)
    requires Inv(s) && Next(s, e, s', threw)
    ensures Inv(s') && (threw ==> e.Pong? && s.stage == D3_1)
  {
    hide Inv, OnTick, OnReferrers, OnDisconnected;
    match e
    case Tick(alarm) => TickKeeps(s, alarm, s', threw);
    case Pong(_, _, _, _, _) => PongKeeps(s, e, s', threw);
    case Referrers(addresses) => ReferrersKeeps(s, addresses, s');
    case Disconnected(a) => DisconnectRestartsOnce(s, a);
    case ConnectFailed(a) => DisconnectRestartsOnce(s, a);
  }
}
