/**
 * What a referrer node sends, arms and records, told per message, alarm and field: which events end an attempt, whom
 * a node asks, whom it takes as uplink. Nothing here uses the steps that the handlers are made of.
 */
module ReferrerMessages {
  import opened ReferrerProtocol
  import opened ReferrerSafety
  import opened ReferrerRuns

  // Events that matter.

  /** An alarm of this attempt goes off. */
  ghost predicate GoesOff(s: Node, e: Event, timer: Timer) {
    e.Tick? && e.alarm.timer == timer && e.alarm in s.alarms && s.alarms[e.alarm] == s.cs
  }

  /** The attempt fails, or the uplink is lost. */
  ghost predicate Restarts(s: Node, e: Event) {
    || GoesOff(s, e, T001)
    || (GoesOff(s, e, T009) && e.alarm.data.About? && e.alarm.data.addr in s.uplink)
    || ((e.Disconnected? || e.ConnectFailed?) && e.addr in s.uplink)
  }

  /** A pong of another node in this attempt. */
  ghost predicate Counts(s: Node, e: Event) {
    e.Pong? && !e.own && e.cs == s.cs
  }

  /** No neighbour has answered in time. */
  ghost predicate TurnsToTop(s: Node, e: Event) {
    GoesOff(s, e, T040) && s.stage == D2
  }

  /** The first answer: from a neighbour that is no top server, or from a top server when those are asked. */
  ghost predicate Asks(s: Node, e: Event) {
    && Counts(s, e) && e.pingType == PT_CACHED
    && ((s.stage == D2 && e.addr !in s.caps) || (s.stage == D21 && e.addr in s.caps))
  }

  /** Referrers are named. */
  ghost predicate FollowsUp(s: Node, e: Event) {
    e.Referrers? && s.stage == D3 && e.addresses != {}
  }

  /** Nobody else is going to answer. */
  ghost predicate Awaited(s: Node, e: Event) {
    || ((GoesOff(s, e, T002) || (e.Referrers? && e.addresses == {})) && s.stage == D3)
    || GoesOff(s, e, T020)
  }

  /** A referrer that was named answers. */
  ghost predicate NamesUs(s: Node, e: Event) {
    Counts(s, e) && e.pingType == PT_CACHED && s.stage == D3_1
  }

  /** The pongs of this attempt, the one that arrives included. */
  ghost function Known(s: Node, e: Event): set<Ponged> {
    if Counts(s, e) then s.ponged + {Ponged(e.addr, e.visible)} else s.ponged
  }

  /**
   * Whom the node may take as uplink. When the waiting is over: one that does not know us by a top server's name, if
   * there is one. When a referrer answers: one that knows us by the same name, no top server if there is one.
   */
  ghost predicate MayTake(s: Node, e: Event, p: Ponged) {
    && p in Known(s, e)
    && ((Awaited(s, e) && (p.visible !in s.caps || forall o :: o in s.ponged ==> o.visible in s.caps))
        || (NamesUs(s, e) && p.visible == e.visible
            && (p.addr !in s.caps || forall o :: o in Known(s, e) && o.visible == e.visible ==> o.addr in s.caps)))
  }

  /** It takes one for certain. */
  ghost predicate MustTake(s: Node, e: Event) {
    Awaited(s, e) || (NamesUs(s, e) && exists o :: o in Known(s, e) && o.addr !in s.caps && o.visible == e.visible)
  }

  /** a is the uplink that was taken. */
  ghost predicate Taken(s: Node, s': Node, a: Addr) {
    s.uplink == {} && a in s'.uplink
  }

  // The step, field by field.

  ghost predicate StageIs(s: Node, e: Event, s': Node) {
    s'.stage ==
      if Restarts(s, e) then (if s.neighbours != {} then D2 else D21)
      else if TurnsToTop(s, e) then D21
      else if Asks(s, e) then D3
      else if FollowsUp(s, e) then D3_1
      else if s'.uplink != s.uplink then D6
      else s.stage
  }

  ghost predicate UplinkIs(s: Node, e: Event, s': Node) {
    && (if Restarts(s, e) then s'.uplink == {}
        else s'.uplink == s.uplink || (s.uplink == {} && exists p :: MayTake(s, e, p) && s'.uplink == {p.addr}))
    && (MustTake(s, e) ==> s'.uplink != {})
    && (s'.established <==> s'.uplink != {})
  }

  /** What is known of other nodes: a new attempt begins without pongs and neighbours. */
  ghost predicate PongsAre(s: Node, e: Event, s': Node) {
    && s'.ponged == (if Restarts(s, e) then {} else Known(s, e))
    && s'.neighbours == (if Restarts(s, e) then {} else if Counts(s, e) then s.neighbours + {e.addr} else s.neighbours)
    && s'.externals == (if Counts(s, e) then s.externals + {Addr(e.visible.ip, s.ownPort)} else s.externals)
  }

  /** Message m is sent. */
  ghost predicate Sends(s: Node, e: Event, s': Node, m: Msg) {
    match m
    case GetReferrers(dest) => Asks(s, e) && dest == e.addr
    case Register(dest) => Taken(s, s', dest) || (GoesOff(s, e, T012) && dest in s.uplink)
    case Ping(dest, pingType, cs) =>
      && cs == s'.cs
      && match pingType
         case PT_CACHED =>
           if Restarts(s, e)
           then (if s.neighbours != {} then dest in s.neighbours && dest !in s.caps else dest in s.caps)
           else (TurnsToTop(s, e) && dest in s.caps) || (FollowsUp(s, e) && dest in e.addresses)
         case PT_CAPS_SHORT =>
           Taken(s, s', dest) || (GoesOff(s, e, T007) && e.alarm.data == About(dest) && dest in s.caps)
         case PT_MASTER_SHORT => GoesOff(s, e, T007) && e.alarm.data == About(dest) && dest !in s.caps
         case PT_CAPS_LONG => GoesOff(s, e, T008) && e.alarm.data == About(dest) && s.stage == D6 && dest in s.caps
         case PT_MASTER_LONG => GoesOff(s, e, T008) && e.alarm.data == About(dest) && s.stage == D6 && dest !in s.caps
  }

  /** An alarm is armed, or armed again. */
  ghost predicate Arms(s: Node, e: Event, s': Node, alarm: Alarm) {
    match alarm
    case Alarm(T001, None) => Restarts(s, e) || TurnsToTop(s, e) || Asks(s, e) || FollowsUp(s, e)
    case Alarm(T040, None) => Restarts(s, e) && s.neighbours != {}
    case Alarm(T002, None) => Asks(s, e)
    case Alarm(T020, None) => FollowsUp(s, e)
    case Alarm(T012, None) => (exists a :: Taken(s, s', a)) || GoesOff(s, e, T012)
    case Alarm(T007, About(a)) => Taken(s, s', a) || (GoesOff(s, e, T007) && e.alarm == alarm)
    case Alarm(T008, About(a)) => Counts(s, e) && e.pingType != PT_CACHED && e.addr == a
    case Alarm(T009, About(a)) => Counts(s, e) && e.pingType != PT_CACHED && e.addr == a
    case _ => false
  }

  /** An alarm that is not armed at the same time goes off or is stopped. */
  ghost predicate Stops(s: Node, e: Event, s': Node, alarm: Alarm) {
    || e == Tick(alarm)
    || match alarm
       case Alarm(T001, None) => exists a :: Taken(s, s', a)
       case Alarm(T020, None) => e.Pong? && exists a :: Taken(s, s', a)
       case Alarm(T002, None) => e.Referrers? && s.stage == D3
       case Alarm(T007, About(a)) =>
         || (Counts(s, e) && e.pingType in {PT_CAPS_SHORT, PT_MASTER_SHORT} && e.addr == a)
         || (GoesOff(s, e, T009) && e.alarm.data == About(a) && a in s.uplink)
       case Alarm(T008, About(a)) => GoesOff(s, e, T009) && e.alarm.data == About(a) && a in s.uplink
       case _ => false
  }

  ghost predicate AlarmIs(s: Node, e: Event, s': Node, alarm: Alarm) {
    if Arms(s, e, s', alarm) then Armed(s', alarm.timer, alarm.data)
    else if Stops(s, e, s', alarm) then alarm !in s'.alarms
    else (alarm in s'.alarms <==> alarm in s.alarms) && (alarm in s.alarms ==> s'.alarms[alarm] == s.alarms[alarm])
  }

  ghost predicate StepIs(s: Node, e: Event, s': Node) {
    && s'.caps == s.caps && s'.ownPort == s.ownPort && s'.cs == s.cs + (if Restarts(s, e) then 1 else 0)
    && StageIs(s, e, s') && UplinkIs(s, e, s') && PongsAre(s, e, s')
    && (forall m :: m in s'.sent <==> m in s.sent || Sends(s, e, s', m))
    && forall alarm :: AlarmIs(s, e, s', alarm)
  }

  // The steps of the handlers are such steps.

  ghost predicate SameAlarm(s: Node, t: Node, alarm: Alarm) {
    (alarm in t.alarms <==> alarm in s.alarms) && (alarm in s.alarms ==> t.alarms[alarm] == s.alarms[alarm])
  }

  lemma {:induction false} StartD2Fields(s: Node)
    ensures var t := StartD2(s);
      && t.caps == s.caps && t.ownPort == s.ownPort && t.cs == s.cs + 1
      && t.stage == (if s.neighbours != {} then D2 else D21) && t.uplink == {} && !t.established
      && t.ponged == {} && t.neighbours == {} && t.externals == s.externals
    ensures var t := StartD2(s);
      forall m :: m in t.sent <==> m in s.sent || (m.Ping?
                                                   && m.pingType == PT_CACHED && m.cs == t.cs
                                                   && if s.neighbours != {} then m.dest in s.neighbours - s.caps
                                                      else m.dest in s.caps)
  {
  }

  lemma {:induction false} StartD2Alarms(s: Node, alarm: Alarm)
    ensures var t := StartD2(s);
      if alarm == Alarm(T001, None) || (alarm == Alarm(T040, None) && s.neighbours != {})
      then Armed(t, alarm.timer, alarm.data)
      else SameAlarm(s, t, alarm)
  {
  }

  lemma {:induction false} EstablishFields(s: Node, a: Addr)
    ensures var t := Establish(s, a);
      && t.caps == s.caps && t.ownPort == s.ownPort && t.cs == s.cs && t.stage == D6 && t.uplink == s.uplink + {a}
      && t.established && t.ponged == s.ponged && t.neighbours == s.neighbours && t.externals == s.externals
    ensures var t := Establish(s, a);
      forall m :: m in t.sent <==> m in s.sent || m == Register(a) || m == Ping(a, PT_CAPS_SHORT, s.cs)
  {
  }

  lemma {:induction false} EstablishAlarms(s: Node, a: Addr, alarm: Alarm)
    ensures var t := Establish(s, a);
      if alarm == Alarm(T012, None) || alarm == Alarm(T007, About(a)) then Armed(t, alarm.timer, alarm.data)
      else if alarm == Alarm(T001, None) then alarm !in t.alarms
      else SameAlarm(s, t, alarm)
  {
  }

  /** The alarms that a step stops are gone, the others still as they were. */
  ghost predicate StoppedBy(s: Node, e: Event, s': Node, s1: Node) {
    forall alarm :: if Stops(s, e, s', alarm) then alarm !in s1.alarms || alarm == Alarm(T001, None)
                    else SameAlarm(s, s1, alarm)
  }

  lemma {:induction false} RestartAlarm(s: Node, e: Event, s1: Node, alarm: Alarm)
    requires Restarts(s, e) && !Counts(s, e) && s1 == s.(alarms := s1.alarms) && StoppedBy(s, e, StartD2(s1), s1)
    ensures AlarmIs(s, e, StartD2(s1), alarm)
  {
    hide StartD2;
    StartD2Fields(s1);
    StartD2Alarms(s1, alarm);
  }

  /** The attempt ends, and some alarms may have been stopped before. */
  lemma {:induction false} RestartIs(s: Node, e: Event, s1: Node)
    requires Restarts(s, e) && !Counts(s, e) && s1 == s.(alarms := s1.alarms) && StoppedBy(s, e, StartD2(s1), s1)
    ensures StepIs(s, e, StartD2(s1))
  {
    hide StartD2, AlarmIs;
    StartD2Fields(s1);
    forall alarm
      ensures AlarmIs(s, e, StartD2(s1), alarm)
    {
      RestartAlarm(s, e, s1, alarm);
    }
  }

  /** What is changed before a node is taken. */
  ghost predicate ReadyToTake(s: Node, e: Event, s1: Node, p: Ponged) {
    && s.uplink == {} && s.stage in {D3, D3_1} && MayTake(s, e, p)
    && s1 == s.(alarms := s1.alarms, ponged := s1.ponged, neighbours := s1.neighbours, externals := s1.externals)
    && PongsAre(s, e, s1) && StoppedBy(s, e, Establish(s1, p.addr), s1)
  }

  lemma {:induction false} NoRestart(s: Node, e: Event, p: Ponged)
    requires s.uplink == {} && s.stage in {D3, D3_1} && MayTake(s, e, p)
    ensures !Restarts(s, e) && !TurnsToTop(s, e) && !Asks(s, e) && !FollowsUp(s, e)
    ensures !GoesOff(s, e, T007) && !GoesOff(s, e, T008) && !GoesOff(s, e, T012)
    ensures Counts(s, e) ==> e.pingType == PT_CACHED
  {
  }

  lemma {:induction false} TakenAlarm(s: Node, e: Event, s1: Node, p: Ponged, alarm: Alarm)
    requires ReadyToTake(s, e, s1, p)
    ensures AlarmIs(s, e, Establish(s1, p.addr), alarm)
  {
    hide Establish, MayTake, PongsAre;
    NoRestart(s, e, p);
    EstablishFields(s1, p.addr);
    EstablishAlarms(s1, p.addr, alarm);
    assert Taken(s, Establish(s1, p.addr), p.addr);
  }

  /** A node is taken as uplink. */
  lemma {:induction false} TakeIs(s: Node, e: Event, s1: Node, p: Ponged)
    requires ReadyToTake(s, e, s1, p)
    ensures StepIs(s, e, Establish(s1, p.addr))
  {
    hide Establish, AlarmIs, StoppedBy;
    EstablishFields(s1, p.addr);
    assert MayTake(s, e, p);
    NoRestart(s, e, p);
    forall alarm
      ensures AlarmIs(s, e, Establish(s1, p.addr), alarm)
    {
      TakenAlarm(s, e, s1, p, alarm);
    }
  }


  // Alarms that go off.

  lemma {:induction false} StaleTickIs(s: Node, alarm: Alarm, s': Node, threw: bool)
    requires Inv(s) && OnTick(s, alarm, s', threw) && s.alarms[alarm] != s.cs
    ensures StepIs(s, Tick(alarm), s')
  {
    InvStage(s);
  }

  /** An established connection is an uplink. */
  lemma {:induction false} InvStage(s: Node)
    requires Inv(s)
    ensures s.established <==> s.uplink != {}
    ensures s.uplink == {} <==> s.stage in {D2, D21, D3, D3_1}
    ensures s.stage in {D3, D3_1} ==> s.ponged != {}
  {
  }

  lemma {:induction false} PickedMayBeTaken(s: Node, e: Event, s1: Node, s': Node)
    requires Awaited(s, e) && !Counts(s, e) && s.stage in {D3, D3_1} && s.uplink == {} && s.ponged != {}
    requires s1 == s.(alarms := s1.alarms) && EstablishesSome(s1, s')
    requires forall p :: p in s.ponged ==> StoppedBy(s, e, Establish(s1, p.addr), s1)
    ensures StepIs(s, e, s')
  {
    hide Establish, StoppedBy, StepIs;
    if exists p :: p in s.ponged && p.visible !in s.caps {
      var p :| p in s.ponged && p.visible !in s.caps && s' == Establish(s1, p.addr);
      TakeIs(s, e, s1, p);
    } else {
      var p :| p in s.ponged && s' == Establish(s1, p.addr);
      TakeIs(s, e, s1, p);
    }
  }

  /** Stopping just the alarm that has gone off. */
  lemma {:induction false} TickStops(s: Node, alarm: Alarm, a: Addr)
    requires alarm in s.alarms && alarm.timer in {T002, T020} && s.uplink == {} && alarm.data == None
    ensures var s1 := s.(alarms := s.alarms - {alarm}); StoppedBy(s, Tick(alarm), Establish(s1, a), s1)
  {
    var s1 := s.(alarms := s.alarms - {alarm});
    EstablishFields(s1, a);
    hide Establish;
  }

  lemma {:induction false} WaitingOverIs(s: Node, alarm: Alarm, s': Node)
    requires Inv(s) && alarm in s.alarms && s.alarms[alarm] == s.cs && s.stage in {D3, D3_1}
    requires alarm == Alarm(T020, None) || (alarm == Alarm(T002, None) && s.stage == D3)
    requires EstablishesSome(s.(alarms := s.alarms - {alarm}), s')
    ensures StepIs(s, Tick(alarm), s')
  {
    hide Establish, EstablishesSome, StoppedBy, StepIs;
    InvStage(s);
    var s1 := s.(alarms := s.alarms - {alarm});
    forall p | p in s.ponged
      ensures StoppedBy(s, Tick(alarm), Establish(s1, p.addr), s1)
    {
      TickStops(s, alarm, p.addr);
    }
    PickedMayBeTaken(s, Tick(alarm), s1, s');
  }

  lemma {:induction false} RetryIs(s: Node, alarm: Alarm)
    requires alarm in s.alarms && s.alarms[alarm] == s.cs && alarm == Alarm(T001, None)
    ensures StepIs(s, Tick(alarm), StartD2(s.(alarms := s.alarms - {alarm})))
  {
    hide StartD2, StepIs;
    var s1 := s.(alarms := s.alarms - {alarm});
    StartD2Fields(s1);
    RestartIs(s, Tick(alarm), s1);
  }

  lemma {:induction false} StopThree(s: Node, a: Addr, alarm: Alarm)
    ensures var s1 := Stop(Stop(Stop(s, T007, About(a)), T008, About(a)), T009, About(a));
      && s1 == s.(alarms := s1.alarms)
      && if alarm in {Alarm(T007, About(a)), Alarm(T008, About(a)), Alarm(T009, About(a))} then alarm !in s1.alarms
         else SameAlarm(s, s1, alarm)
  {
  }

  /** The pong of a long ping has not come in time. */
  lemma {:induction false} TimeoutIs(s: Node, alarm: Alarm, a: Addr)
    requires Inv(s) && alarm in s.alarms && s.alarms[alarm] == s.cs && alarm == Alarm(T009, About(a))
    ensures StepIs(s, Tick(alarm), LoseAndStop(s.(alarms := s.alarms - {alarm}), a))
  {
    hide StartD2, StepIs, Stop;
    var s0 := s.(alarms := s.alarms - {alarm});
    if a in s.uplink {
      var s1 := Stop(Stop(Stop(s0, T007, About(a)), T008, About(a)), T009, About(a));
      StopThree(s0, a, alarm);
      StartD2Fields(s1);
      forall other
        ensures if Stops(s, Tick(alarm), StartD2(s1), other) then other !in s1.alarms else SameAlarm(s, s1, other)
      {
        StopThree(s0, a, other);
      }
      RestartIs(s, Tick(alarm), s1);
    } else {
      NothingIs(s, alarm);
    }
  }

  /** The alarm goes off and nothing more happens. */
  lemma {:induction false} NothingIs(s: Node, alarm: Alarm)
    requires Inv(s) && alarm in s.alarms && s.alarms[alarm] == s.cs
    requires !Restarts(s, Tick(alarm)) && !TurnsToTop(s, Tick(alarm)) && !Awaited(s, Tick(alarm))
    requires alarm.timer == T008 ==> s.stage != D6
    requires !(alarm.timer in {T007, T012})
    ensures StepIs(s, Tick(alarm), s.(alarms := s.alarms - {alarm}))
  {
    InvStage(s);
    hide Inv;
  }

  lemma {:induction false} ReregisterIs(s: Node, alarm: Alarm, a: Addr)
    requires Inv(s) && alarm in s.alarms && s.alarms[alarm] == s.cs && alarm == Alarm(T012, None) && s.uplink == {a}
    ensures StepIs(s, Tick(alarm), RegisterAt(s.(alarms := s.alarms - {alarm}), a))
  {
    InvStage(s);
    hide Inv;
  }

  lemma {:induction false} TurnToTopIs(s: Node, alarm: Alarm)
    requires Inv(s) && alarm in s.alarms && s.alarms[alarm] == s.cs && alarm == Alarm(T040, None) && s.stage == D2
    ensures StepIs(s, Tick(alarm), StartD21(s.(alarms := s.alarms - {alarm})))
  {
    InvStage(s);
    hide Inv;
  }

  lemma {:induction false} ShortPingIs(s: Node, alarm: Alarm, a: Addr)
    requires Inv(s) && alarm in s.alarms && s.alarms[alarm] == s.cs && alarm == Alarm(T007, About(a))
    ensures var m := Ping(a, if a in s.caps then PT_CAPS_SHORT else PT_MASTER_SHORT, s.cs);
      StepIs(s, Tick(alarm), Arm(Send(s.(alarms := s.alarms - {alarm}), m), T007, About(a)))
  {
    InvStage(s);
    hide Inv;
  }

  lemma {:induction false} LongPingIs(s: Node, alarm: Alarm, a: Addr)
    requires Inv(s) && alarm in s.alarms && s.alarms[alarm] == s.cs && alarm == Alarm(T008, About(a)) && s.stage == D6
    ensures var m := Ping(a, if a in s.caps then PT_CAPS_LONG else PT_MASTER_LONG, s.cs);
      StepIs(s, Tick(alarm), Send(s.(alarms := s.alarms - {alarm}), m))
  {
    InvStage(s);
    hide Inv;
  }

  /** What the invariant says of an alarm of this attempt. */
  lemma {:induction false} OwnAlarm(s: Node, alarm: Alarm)
    requires Inv(s) && alarm in s.alarms && s.alarms[alarm] == s.cs
    ensures alarm.data.About? <==> HasAddress(alarm.timer)
    ensures (alarm.timer == T020 ==> s.stage == D3_1) && (alarm.timer == T012 ==> s.stage == D6)
    ensures s.stage == D6 ==> exists u :: s.uplink == {u}
  {
    if s.stage == D6 {
      var u := ConnectedFacts(s);
    }
  }

  lemma {:induction false} TickIs(s: Node, alarm: Alarm, s': Node, threw: bool)
    requires Inv(s) && OnTick(s, alarm, s', threw)
    ensures StepIs(s, Tick(alarm), s')
  {
    hide Inv, StepIs, EstablishesSome, StartD2, StartD21, RegisterAt, LoseAndStop;
    if s.alarms[alarm] != s.cs {
      StaleTickIs(s, alarm, s', threw);
    } else {
      OwnAlarm(s, alarm);
      InvStage(s);
      match alarm.timer
      case T001 => RetryIs(s, alarm);
      case T002 =>
        if s.stage == D3 {
          WaitingOverIs(s, alarm, s');
        } else {
          NothingIs(s, alarm);
        }
      case T012 =>
        var u :| s.uplink == {u};
        ReregisterIs(s, alarm, u);
      case T020 => WaitingOverIs(s, alarm, s');
      case T040 =>
        if s.stage == D2 {
          TurnToTopIs(s, alarm);
        } else {
          NothingIs(s, alarm);
        }
      case T007 => ShortPingIs(s, alarm, alarm.data.addr);
      case T008 =>
        if s.stage == D6 {
          LongPingIs(s, alarm, alarm.data.addr);
        } else {
          NothingIs(s, alarm);
        }
      case T009 => TimeoutIs(s, alarm, alarm.data.addr);
    }
  }

  // Pongs.

  /** A pong that does not count. */
  lemma {:induction false} IgnoredIs(s: Node, e: Event)
    requires Inv(s) && e.Pong? && !Counts(s, e)
    ensures StepIs(s, e, s)
  {
    InvStage(s);
    hide Inv;
  }

  lemma {:induction false} AskIs(s: Node, e: Event)
    requires Inv(s) && Asks(s, e)
    ensures StepIs(s, e, StartD3(Record(s, e.addr, e.visible), e.addr))
  {
    InvStage(s);
    hide Inv;
  }

  /** A pong that is only recorded. */
  lemma {:induction false} RecordIs(s: Node, e: Event)
    requires Inv(s) && Counts(s, e) && e.pingType == PT_CACHED && !Asks(s, e) && !MustTake(s, e)
    ensures StepIs(s, e, Record(s, e.addr, e.visible))
  {
    InvStage(s);
    hide Inv;
  }

  lemma {:induction false} LongPongIs(s: Node, e: Event)
    requires Inv(s) && Counts(s, e) && e.pingType in {PT_CAPS_LONG, PT_MASTER_LONG}
    ensures StepIs(s, e, AwaitLong(Record(s, e.addr, e.visible), e.addr))
  {
    InvStage(s);
    hide Inv;
  }

  lemma {:induction false} ShortPongAlarm(s: Node, e: Event, alarm: Alarm)
    requires Counts(s, e) && e.pingType in {PT_CAPS_SHORT, PT_MASTER_SHORT}
    ensures AlarmIs(s, e, AfterShortPong(Record(s, e.addr, e.visible), e.addr), alarm)
  {
    var s1 := Record(s, e.addr, e.visible);
    AfterShortPongAlarms(s1, e.addr, alarm);
    assert AfterShortPong(s1, e.addr).cs == s.cs && AfterShortPong(s1, e.addr).uplink == s.uplink;
    hide AfterShortPong;
  }

  lemma {:induction false} ShortPongIs(s: Node, e: Event)
    requires Inv(s) && Counts(s, e) && e.pingType in {PT_CAPS_SHORT, PT_MASTER_SHORT}
    ensures StepIs(s, e, AfterShortPong(Record(s, e.addr, e.visible), e.addr))
  {
    hide AlarmIs, Inv;
    InvStage(s);
    forall alarm
      ensures AlarmIs(s, e, AfterShortPong(Record(s, e.addr, e.visible), e.addr), alarm)
    {
      ShortPongAlarm(s, e, alarm);
    }
  }

  lemma {:induction false} NamedIs(s: Node, e: Event, s': Node, threw: bool)
    requires Inv(s) && NamesUs(s, e) && OnPongInD31(Record(s, e.addr, e.visible), e.visible, s', threw)
    ensures StepIs(s, e, s')
  {
    hide Inv, StepIs, Establish, Stop;
    InvStage(s);
    var r := Record(s, e.addr, e.visible);
    forall p | p in r.ponged && p.visible == e.visible && MayTake(s, e, p)
      ensures StepIs(s, e, Establish(Stop(r, T020, None), p.addr))
    {
      NamedTakeIs(s, e, p);
    }
    assert r.ponged == Known(s, e);
    if s' == r && !MustTake(s, e) {
      RecordIs(s, e);
    }
  }

  lemma {:induction false} NamedTakeIs(s: Node, e: Event, p: Ponged)
    requires Inv(s) && NamesUs(s, e) && MayTake(s, e, p)
    ensures StepIs(s, e, Establish(Stop(Record(s, e.addr, e.visible), T020, None), p.addr))
  {
    hide StepIs, Establish;
    InvStage(s);
    var s1 := Stop(Record(s, e.addr, e.visible), T020, None);
    EstablishFields(s1, p.addr);
    assert Taken(s, Establish(s1, p.addr), p.addr);
    assert StoppedBy(s, e, Establish(s1, p.addr), s1);
    TakeIs(s, e, s1, p);
  }

  lemma {:induction false} PongIs(s: Node, e: Event, s': Node, threw: bool)
    requires Inv(s) && e.Pong? && OnPong(s, e, s', threw)
    ensures StepIs(s, e, s')
  {
    hide Inv, StepIs, OnPongInD31, Record, StartD3, AfterShortPong, AwaitLong;
    RecordStage(s, e.addr, e.visible);
    if !Counts(s, e) {
      IgnoredIs(s, e);
    } else {
      match e.pingType
      case PT_CACHED =>
        if Asks(s, e) {
          AskIs(s, e);
        } else if s.stage == D3_1 {
          NamedIs(s, e, s', threw);
        } else {
          RecordIs(s, e);
        }
      case PT_CAPS_SHORT => ShortPongIs(s, e);
      case PT_MASTER_SHORT => ShortPongIs(s, e);
      case PT_CAPS_LONG => LongPongIs(s, e);
      case PT_MASTER_LONG => LongPongIs(s, e);
    }
  }

  lemma {:induction false} RecordStage(s: Node, addr: Addr, visible: Addr)
    ensures Record(s, addr, visible).stage == s.stage && Record(s, addr, visible).caps == s.caps
  {
  }

  // The other events.

  lemma {:induction false} IgnoredAnswerIs(s: Node, e: Event)
    requires Inv(s) && e.Referrers? && s.stage != D3
    ensures StepIs(s, e, s)
  {
    InvStage(s);
    hide Inv;
  }

  lemma {:induction false} FollowUpIs(s: Node, e: Event)
    requires Inv(s) && FollowsUp(s, e)
    ensures var s1 := Arm(Stop(s, T002, None), T001, None);
      StepIs(s, e, Arm(PingAll(s1, e.addresses).(stage := D3_1), T020, None))
  {
    InvStage(s);
    hide Inv;
  }

  lemma {:induction false} NoReferrersIs(s: Node, e: Event, s': Node)
    requires Inv(s) && e == Referrers({}) && s.stage == D3
    requires EstablishesSome(Arm(Stop(s, T002, None), T001, None), s')
    ensures StepIs(s, e, s')
  {
    hide Establish, EstablishesSome, StoppedBy, StepIs;
    InvStage(s);
    var s1 := Arm(Stop(s, T002, None), T001, None);
    forall p | p in s.ponged
      ensures StoppedBy(s, e, Establish(s1, p.addr), s1)
    {
      NoReferrersStops(s, e, p.addr);
    }
    PickedMayBeTaken(s, e, s1, s');
  }

  lemma {:induction false} NoReferrersStops(s: Node, e: Event, a: Addr)
    requires e == Referrers({}) && s.stage == D3 && s.uplink == {} && Armed(s, T001, None)
    ensures var s1 := Arm(Stop(s, T002, None), T001, None); StoppedBy(s, e, Establish(s1, a), s1)
  {
    hide Establish;
    var s1 := Arm(Stop(s, T002, None), T001, None);
    EstablishFields(s1, a);
    assert Taken(s, Establish(s1, a), a);
  }

  lemma {:induction false} AnswerIs(s: Node, addresses: set<Addr>, s': Node)
    requires Inv(s) && OnReferrers(s, addresses, s')
    ensures StepIs(s, Referrers(addresses), s')
  {
    hide Inv, StepIs, EstablishesSome;
    if s.stage != D3 {
      IgnoredAnswerIs(s, Referrers(addresses));
    } else if addresses == {} {
      NoReferrersIs(s, Referrers(addresses), s');
    } else {
      FollowUpIs(s, Referrers(addresses));
    }
  }

  lemma {:induction false} LostIs(s: Node, e: Event)
    requires Inv(s) && (e.Disconnected? || e.ConnectFailed?)
    ensures StepIs(s, e, OnDisconnected(s, e.addr))
  {
    hide StartD2;
    DisconnectRestartsOnce(s, e.addr);
    if e.addr in s.uplink {
      StartD2Fields(s);
      RestartIs(s, e, s);
    } else {
      InvStage(s);
      hide Inv, OnDisconnected;
    }
  }

  /** Every event changes exactly what is told above. */
  lemma {:induction false} EveryStepIs(s: Node, e: Event, s': Node, threw: bool)
    requires Inv(s) && Next(s, e, s', threw)
    ensures StepIs(s, e, s')
  {
    hide Inv, StepIs, OnTick, OnPong, OnReferrers, OnDisconnected;
    match e
    case Tick(alarm) => TickIs(s, alarm, s', threw);
    case Pong(_, _, _, _, _) => PongIs(s, e, s', threw);
    case Referrers(addresses) => AnswerIs(s, addresses, s');
    case Disconnected(a) => LostIs(s, e);
    case ConnectFailed(a) => LostIs(s, e);
  }

  /** ... and besides the choice of the uplink that leaves nothing open. */
  lemma {:induction false} StepDetermined(s: Node, e: Event, s1: Node, s2: Node)
    requires StepIs(s, e, s1) && StepIs(s, e, s2) && s1.uplink == s2.uplink
    ensures s1 == s2
  {
    forall alarm
      ensures alarm in s1.alarms <==> alarm in s2.alarms
      ensures alarm in s1.alarms ==> s1.alarms[alarm] == s2.alarms[alarm]
    {
      AlarmDetermined(s, e, s1, s2, alarm);
    }
    forall m
      ensures m in s1.sent <==> m in s2.sent
    {
      assert Sends(s, e, s1, m) <==> Sends(s, e, s2, m);
    }
    hide AlarmIs, Sends, UplinkIs;
    assert s1.alarms == s2.alarms && s1.sent == s2.sent;
  }

  lemma {:induction false} AlarmDetermined(s: Node, e: Event, s1: Node, s2: Node, alarm: Alarm)
    requires AlarmIs(s, e, s1, alarm) && AlarmIs(s, e, s2, alarm) && s1.uplink == s2.uplink && s1.cs == s2.cs
    ensures SameAlarm(s1, s2, alarm)
  {
    assert forall a :: Taken(s, s1, a) <==> Taken(s, s2, a);
    assert Arms(s, e, s1, alarm) <==> Arms(s, e, s2, alarm);
    assert Stops(s, e, s1, alarm) <==> Stops(s, e, s2, alarm);
    hide Arms, Stops;
  }

  lemma {:induction false} NamedThrows(s: Node, visible: Addr, s': Node, threw: bool)
    requires s.uplink == {} && OnPongInD31(s, visible, s', threw)
    ensures threw ==> s'.uplink == {} && !exists o :: o in s.ponged && o.addr !in s.caps && o.visible == visible
    ensures threw ==> exists p :: p in s.ponged && p.addr in s.caps && p.visible != visible
    ensures s'.uplink == {} && !threw ==> forall p :: p in s.ponged ==> p.addr !in s.caps
  {
    forall p | p in s.ponged
      ensures Establish(Stop(s, T020, None), p.addr).uplink == {p.addr}
    {
      EstablishFields(Stop(s, T020, None), p.addr);
    }
    hide Establish;
  }

  /** A handler throws exactly if it comes upon a top server by whose pong we have another name. */
  lemma {:induction false} ThrowsWhen(s: Node, e: Event, s': Node, threw: bool)
    requires Inv(s) && Next(s, e, s', threw)
    ensures threw ==> NamesUs(s, e) && !MustTake(s, e) && s'.uplink == {}
    ensures threw ==> exists p :: p in Known(s, e) && p.addr in s.caps && p.visible != e.visible
    ensures NamesUs(s, e) && s'.uplink == {} && !threw ==> forall p :: p in Known(s, e) ==> p.addr !in s.caps
  {
    hide OnPongInD31, OnTick, OnReferrers, OnDisconnected, StartD3, Inv;
    StepKeeps(s, e, s', threw);
    InvStage(s);
    if NamesUs(s, e) {
      assert Record(s, e.addr, e.visible).ponged == Known(s, e);
      NamedThrows(Record(s, e.addr, e.visible), e.visible, s', threw);
    }
  }
}
