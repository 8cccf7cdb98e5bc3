/** The handlers of a referrer node, as they change its fields. */
module ReferrerNode {
  import opened ReferrerProtocol
  import opened ReferrerSafety
  import opened ReferrerRuns
  import opened ReferrerMessages
  import opened ReferrerWaiting

  /** The alarm ends the attempt: the retry, or the watch on an uplink. */
  ghost predicate EndsAttempt(s: Node, alarm: Alarm)
    requires alarm in s.alarms
  {
    s.alarms[alarm] == s.cs
      && (alarm.timer == T001 || (alarm.timer == T009 && alarm.data.About? && alarm.data.addr in s.uplink))
  }

  /** An alarm starts one new attempt if it ends the current one, and none otherwise. */
  lemma {:induction false} TickRestarts(s: Node, alarm: Alarm, s': Node, threw: bool)
    requires AlarmsSound(s) && OnTick(s, alarm, s', threw)
    ensures s'.cs == s.cs + if EndsAttempt(s, alarm) then 1 else 0
  {
    hide StartD2, StartD21, Establish;
    StartD2Counts(s.(alarms := s.alarms - {alarm}));
    forall a
      ensures LoseAndStop(s.(alarms := s.alarms - {alarm}), a).cs == s.cs + if a in s.uplink then 1 else 0
    {
      LostCounts(s.(alarms := s.alarms - {alarm}), a);
    }
    forall a
      ensures Establish(s.(alarms := s.alarms - {alarm}), a).cs == s.cs
    {
      EstablishCounts(s.(alarms := s.alarms - {alarm}), a);
    }
  }

  lemma {:induction false} StartD2Counts(s: Node)
    ensures StartD2(s).cs == s.cs + 1 && StartD21(s).cs == s.cs
  {
  }

  lemma {:induction false} LostCounts(s: Node, a: Addr)
    ensures LoseAndStop(s, a).cs == s.cs + if a in s.uplink then 1 else 0
  {
    StartD2Counts(Stop(Stop(Stop(s, T007, About(a)), T008, About(a)), T009, About(a)));
  }

  lemma {:induction false} EstablishCounts(s: Node, a: Addr)
    ensures Establish(s, a).cs == s.cs
  {
  }

  /** A pong starts no new attempt, and its handler throws only while the pongs of referrers are awaited. */
  lemma {:induction false} PongFacts(s: Node, e: Event, s': Node, threw: bool)
    requires e.Pong? && OnPong(s, e, s', threw)
    ensures s'.cs == s.cs && (threw ==> s.stage == D3_1)
  {
    hide Establish;
    var s1 := Record(s, e.addr, e.visible);
    forall a
      ensures Establish(Stop(s1, T020, None), a).cs == s.cs
    {
      EstablishCounts(Stop(s1, T020, None), a);
    }
  }

  lemma {:induction false} ReferrersFacts(s: Node, addresses: set<Addr>, s': Node)
    requires OnReferrers(s, addresses, s')
    ensures s'.cs == s.cs
  {
    hide Establish;
    var s1 := Arm(Stop(s, T002, None), T001, None);
    forall a
      ensures Establish(s1, a).cs == s.cs
    {
      EstablishCounts(s1, a);
    }
  }

  class Service {
    const caps: set<Addr>
    const ownPort: nat
    var connectionSequenceId: int
    var stage: Stage
    var uplink: set<Addr>
    var connectionEstablished: bool
    var pongedAll: set<Ponged>
    var neighbours: set<Addr>
    var externalAddresses: set<Addr>
    /** The timer service's alarms for this node, and what the node has sent. */
    var alarms: map<Alarm, int>
    var sent: set<Msg>

    /** The node's state as a value. */
    ghost function View(): Node
      reads this
    {
      Node(caps, ownPort, connectionSequenceId, stage, uplink, connectionEstablished, pongedAll, neighbours,
           externalAddresses, alarms, sent)
    }

    /** What holds between events, from the start of the service on. */
    ghost predicate Valid()
      reads this
    {
      Inv(View()) && Waits(View())
    }

    /** A node before it is started; where no stage has been set yet, any will do. */
    constructor (caps: set<Addr>, ownPort: nat, neighbours: set<Addr>)
      ensures Unstarted(View()) && this.caps == caps && this.neighbours == neighbours
    {
      this.caps, this.ownPort, this.neighbours := caps, ownPort, neighbours;
      connectionSequenceId, stage, uplink, connectionEstablished := 0, D2, {}, false;
      pongedAll, externalAddresses, alarms, sent := {}, {}, map[], {};
    }

    predicate IsTopServer(sa: Addr) {
      sa in caps
    }

    method ResetAlarm(timer: Timer, data: Data)
      modifies this
      ensures View() == Arm(old(View()), timer, data)
    {
      alarms := alarms[Alarm(timer, data) := connectionSequenceId];
    }

    method StopAlarm(timer: Timer, data: Data)
      modifies this
      ensures View() == Stop(old(View()), timer, data)
    {
      alarms := alarms - {Alarm(timer, data)};
    }

    method SendMsg(m: Msg)
      modifies this
      ensures View() == Send(old(View()), m)
    {
      sent := sent + {m};
    }

    /** Pings every address of a list. */
    method PingCached(dests: set<Addr>)
      modifies this
      ensures View() == PingAll(old(View()), dests)
    {
      var rest := dests;
      while rest != {}
        invariant rest <= dests
        invariant View() == PingAll(old(View()), dests - rest)
        decreases |rest|
      {
        var a :| a in rest;
        SendMsg(Ping(a, PT_CACHED, connectionSequenceId));
        rest := rest - {a};
        assert dests - rest == (dests - rest - {a}) + {a};
      }
      assert dests - {} == dests;
    }

    method StageD21Start()
      modifies this
      ensures View() == StartD21(old(View()))
    {
      stage := D21;
      PingCached(caps);
      ResetAlarm(T001, None);
    }

    method StageD2Start()
      modifies this
      ensures View() == StartD2(old(View()))
      ensures connectionSequenceId == old(connectionSequenceId) + 1
      ensures stage == if old(neighbours) != {} then D2 else D21
      ensures var asked := old(neighbours);
        forall m :: m in sent <==> m in old(sent) || (m.Ping?
                                                      && m.pingType == PT_CACHED && m.cs == connectionSequenceId
                                                      && if asked != {} then m.dest in asked && m.dest !in caps
                                                         else m.dest in caps)
    {
      ghost var before := View();
      connectionSequenceId := connectionSequenceId + 1;
      stage := D2;
      uplink, connectionEstablished, pongedAll := {}, false, {};
      ResetAlarm(T001, None);
      var s := neighbours;
      neighbours := {};
      if s != {} {
        var dests := set a | a in s && !IsTopServer(a);
        assert dests == s - caps;
        PingCached(dests);
        ResetAlarm(T040, None);
      } else {
        StageD21Start();
      }
      assert View() == StartD2(before);
      StartD2Fields(before);
    }

    /** The service is started: the first state of a run. */
    method OnStartService()
      requires Unstarted(View())
      modifies this
      ensures Valid() && IsRun(old(View()), [View()], [])
    {
      hide StartD2, Inv, Waits;
      StartD2Keeps(View());
      StartWaits(View());
      StageD2Start();
    }

    /** Asks a node for referrers; it throws if nobody has told us a name of ours. */
    method StageD3Start(sa: Addr) returns (threw: bool)
      modifies this
      ensures externalAddresses == old(externalAddresses)
      ensures threw == (externalAddresses == {})
      ensures !threw ==> View() == StartD3(old(View()), sa)
      ensures sent == old(sent) + if threw then {} else {GetReferrers(sa)}
    {
      stage := D3;
      if externalAddresses == {} {
        return true;
      }
      SendMsg(GetReferrers(sa));
      ResetAlarm(T002, None);
      ResetAlarm(T001, None);
      threw := false;
    }

    method RegisterReferrer(destination: Addr)
      modifies this
      ensures View() == RegisterAt(old(View()), destination)
      ensures sent == old(sent) + {Register(destination)}
    {
      SendMsg(Register(destination));
      ResetAlarm(T012, None);
    }

    method D6Start(sa: Addr)
      modifies this
      ensures View() == StartD6(old(View()), sa)
      ensures sent == old(sent) + {Ping(sa, PT_CAPS_SHORT, connectionSequenceId)}
    {
      stage := D6;
      SendMsg(Ping(sa, PT_CAPS_SHORT, connectionSequenceId));
      ResetAlarm(T007, About(sa));
    }

    method OnConnectionEstablished(remote: Addr)
      modifies this
      ensures var s := Stop(old(View()), T001, None).(established := true, uplink := old(uplink) + {remote});
        View() == StartD6(RegisterAt(s, remote), remote)
      ensures sent == old(sent) + {Register(remote), Ping(remote, PT_CAPS_SHORT, connectionSequenceId)}
    {
      StopAlarm(T001, None);
      connectionEstablished := true;
      uplink := uplink + {remote};
      RegisterReferrer(remote);
      D6Start(remote);
    }

    method D4UplinkMode(esi: Addr)
      modifies this
      ensures View() == Establish(old(View()), esi)
      ensures sent == old(sent) + {Register(esi), Ping(esi, PT_CAPS_SHORT, connectionSequenceId)}
    {
      stage := D4;
      OnConnectionEstablished(esi);
    }

    /** The two loops over the pongs: first for a node that is no top server, then for one that is. */
    method EstablishFirst() returns (found: bool)
      modifies this
      ensures found == (old(View()).ponged != {}) && EstablishesSome(old(View()), View())
    {
      ghost var s := View();
      if exists p :: p in pongedAll && !IsTopServer(p.visible) {
        var p :| p in pongedAll && !IsTopServer(p.visible);
        assert p in s.ponged && p.visible !in s.caps;
        D4UplinkMode(p.addr);
        return true;
      }
      assert forall p :: p in s.ponged ==> p.visible in s.caps;
      if exists p :: p in pongedAll && IsTopServer(p.visible) {
        var p :| p in pongedAll && IsTopServer(p.visible);
        assert p in s.ponged;
        D4UplinkMode(p.addr);
        return true;
      }
      assert s.ponged == {};
      found := false;
    }

    method D4OnDisconnected(sa: Addr)
      modifies this
      ensures View() == Lose(old(View()), sa)
    {
      if sa in uplink {
        StageD2Start();
      }
    }

    method D6OnDisconnected(sa: Addr)
      modifies this
      ensures View() == LoseAndStop(old(View()), sa)
    {
      if sa in uplink {
        StopAlarm(T007, About(sa));
        StopAlarm(T008, About(sa));
        StopAlarm(T009, About(sa));
        StageD2Start();
      }
    }

    /**
     * A connection was lost or could not be made. Both handlers run, and exactly one new attempt begins if it was the
     * connection to the uplink, and nothing happens otherwise.
     */
    method HandleDisconnected(sa: Addr)
      requires Valid()
      modifies this
      ensures Valid() && connectionSequenceId == old(connectionSequenceId) + if sa in old(uplink) then 1 else 0
      ensures sa in old(uplink) ==> stage in {D2, D21} && uplink == {} && pongedAll == {} && !connectionEstablished
      ensures sa !in old(uplink) ==> View() == old(View())
      ensures View() == OnDisconnected(old(View()), sa) && StepIs(old(View()), Disconnected(sa), View())
      ensures StepIs(old(View()), ConnectFailed(sa), View())
    {
      hide StartD2, Inv, Waits, StepIs;
      DisconnectRestartsOnce(View(), sa);
      RestartedFacts(View());
      D4OnDisconnected(sa);
      D6OnDisconnected(sa);
      LostIs(old(View()), Disconnected(sa));
      LostIs(old(View()), ConnectFailed(sa));
      WaitsKept(old(View()), Disconnected(sa), View());
    }

    /** The pongs of the referrers have been waited for. */
    method OnPongsAwaited()
      modifies this
      ensures OnOwnTick(old(View()), Alarm(T020, None), View(), false)
    {
      hide EstablishesSome;
      var found := EstablishFirst();
      if !found {
        NothingToPick(old(View()), View());
        ResetAlarm(T001, None);
      }
    }

    /** The node registers again at its uplink; without one, the handler throws. */
    method OnReregister() returns (threw: bool)
      modifies this
      ensures OnOwnTick(old(View()), Alarm(T012, None), View(), threw)
    {
      if uplink == {} {
        return true;
      }
      var a :| a in uplink;
      RegisterReferrer(a);
      threw := false;
    }

    /** An alarm goes off. No exception, and one new attempt if it ends the current one, otherwise none. */
    method OnTickAlarm(alarm: Alarm) returns (threw: bool)
      requires Valid() && alarm in alarms
      modifies this
      ensures Valid() && !threw && OnTick(old(View()), alarm, View(), threw)
      ensures StepIs(old(View()), Tick(alarm), View())
      ensures connectionSequenceId == old(connectionSequenceId) + if EndsAttempt(old(View()), alarm) then 1 else 0
    {
      hide Inv, Waits, StepIs;
      SoundAlarms(View());
      threw := Dispatch(alarm);
      TickIs(old(View()), alarm, View(), threw);
      WaitsKept(old(View()), Tick(alarm), View());
      TickKeeps(old(View()), alarm, View(), threw);
      TickRestarts(old(View()), alarm, View(), threw);
    }

    method Dispatch(alarm: Alarm) returns (threw: bool)
      requires alarm in alarms && (alarm.data.About? <==> HasAddress(alarm.timer))
      modifies this
      ensures OnTick(old(View()), alarm, View(), threw)
    {
      hide StartD2, StartD21, EstablishesSome, RegisterAt, LoseAndStop;
      var cookie := alarms[alarm];
      alarms := alarms - {alarm};
      threw := false;
      if cookie != connectionSequenceId {
        return;
      }
      match alarm.timer
      case T020 => OnPongsAwaited();
      case T001 => StageD2Start();
      case T012 => threw := OnReregister();
      case T040 =>
        if stage == D2 {
          StageD21Start();
        }
      case T002 =>
        if stage == D3 {
          var found := EstablishFirst();
        }
      case T007 =>
        var a := alarm.data.addr;
        SendMsg(Ping(a, if IsTopServer(a) then PT_CAPS_SHORT else PT_MASTER_SHORT, connectionSequenceId));
        ResetAlarm(T007, About(a));
      case T008 =>
        var a := alarm.data.addr;
        if stage == D6 {
          SendMsg(Ping(a, if IsTopServer(a) then PT_CAPS_LONG else PT_MASTER_LONG, connectionSequenceId));
        }
      case T009 => D6OnDisconnected(alarm.data.addr);
    }

    /** The pong of a short ping, then that of a long one: the wait for the next long pong begins. */
    method D6OnPongShort(a: Addr)
      modifies this
      ensures View() == AfterShortPong(old(View()), a)
    {
      StopAlarm(T007, About(a));
      StopAlarm(T008, About(a));
      StopAlarm(T009, About(a));
      D6OnPongLong(a);
    }

    method D6OnPongLong(a: Addr)
      modifies this
      ensures View() == AwaitLong(old(View()), a)
    {
      ResetAlarm(T008, About(a));
      ResetAlarm(T009, About(a));
    }

    /** The two loops over the pongs in stage D3_1. */
    method EstablishNamed(visible: Addr) returns (threw: bool)
      modifies this
      ensures OnPongInD31(old(View()), visible, View(), threw)
    {
      hide Establish;
      ghost var s := View();
      if exists p :: p in pongedAll && !IsTopServer(p.addr) && p.visible == visible {
        var p :| p in pongedAll && !IsTopServer(p.addr) && p.visible == visible;
        assert p in s.ponged && p.addr !in s.caps && p.visible == visible;
        StopAlarm(T020, None);
        D4UplinkMode(p.addr);
        return false;
      }
      assert !exists p :: p in s.ponged && p.addr !in s.caps && p.visible == visible;
      if exists p :: p in pongedAll && IsTopServer(p.addr) {
        var p :| p in pongedAll && IsTopServer(p.addr);
        assert p in s.ponged && p.addr in s.caps;
        if p.visible != visible {
          return true;
        }
        StopAlarm(T020, None);
        D4UplinkMode(p.addr);
        return false;
      }
      assert !exists p :: p in s.ponged && p.addr in s.caps;
      threw := false;
    }

    /** A pong arrives. The exception of StageD3Start cannot happen here: the pong itself told us a name. */
    method HandlePong(e: Event) returns (threw: bool)
      requires Valid() && e.Pong?
      modifies this
      ensures Valid() && OnPong(old(View()), e, View(), threw) && StepIs(old(View()), e, View())
      ensures connectionSequenceId == old(connectionSequenceId) && (threw ==> old(stage) == D3_1)
    {
      hide Inv, Waits, StepIs;
      threw := OnPongMsg(e);
      PongIs(old(View()), e, View(), threw);
      WaitsKept(old(View()), e, View());
      PongKeeps(old(View()), e, View(), threw);
      PongFacts(old(View()), e, View(), threw);
    }

    method OnPongMsg(e: Event) returns (threw: bool)
      requires e.Pong?
      modifies this
      ensures OnPong(old(View()), e, View(), threw)
    {
      hide OnPongInD31, StartD3, AfterShortPong, AwaitLong;
      threw := false;
      if e.own {
        return;
      }
      if e.cs != connectionSequenceId {
        return;
      }
      pongedAll := pongedAll + {Ponged(e.addr, e.visible)};
      neighbours := neighbours + {e.addr};
      externalAddresses := externalAddresses + {Addr(e.visible.ip, ownPort)};
      assert View() == Record(old(View()), e.addr, e.visible);
      assert Addr(e.visible.ip, ownPort) in externalAddresses;
      match e.pingType
      case PT_CACHED =>
        var okSend := false;
        if stage == D2 {
          okSend := !IsTopServer(e.addr);
        }
        if stage == D21 {
          okSend := IsTopServer(e.addr);
        }
        if okSend {
          threw := StageD3Start(e.addr);
        } else if stage == D3_1 {
          threw := EstablishNamed(e.visible);
        }
      case PT_CAPS_SHORT => D6OnPongShort(e.addr);
      case PT_MASTER_SHORT => D6OnPongShort(e.addr);
      case PT_CAPS_LONG => D6OnPongLong(e.addr);
      case PT_MASTER_LONG => D6OnPongLong(e.addr);
    }

    /** The answer to the request for referrers arrives. */
    method HandleReferrers(addresses: set<Addr>)
      requires Valid()
      modifies this
      ensures Valid() && OnReferrers(old(View()), addresses, View())
      ensures StepIs(old(View()), Referrers(addresses), View())
      ensures connectionSequenceId == old(connectionSequenceId)
    {
      hide Inv, Waits, StepIs;
      OnGetReferrersRSP(addresses);
      AnswerIs(old(View()), addresses, View());
      WaitsKept(old(View()), Referrers(addresses), View());
      ReferrersKeeps(old(View()), addresses, View());
      ReferrersFacts(old(View()), addresses, View());
    }

    method OnGetReferrersRSP(addresses: set<Addr>)
      modifies this
      ensures OnReferrers(old(View()), addresses, View())
    {
      hide EstablishesSome;
      if stage != D3 {
        return;
      }
      StopAlarm(T002, None);
      ResetAlarm(T001, None);
      if addresses == {} {
        var found := EstablishFirst();
        return;
      }
      PingCached(addresses);
      stage := D3_1;
      ResetAlarm(T020, None);
    }

    /** Any event: a step of the run, after which the next event can be handled. */
    method HandleEvent(e: Event) returns (threw: bool)
      requires Valid() && (e.Tick? ==> e.alarm in alarms)
      modifies this
      ensures Valid() && Next(old(View()), e, View(), threw) && (threw ==> e.Pong? && old(stage) == D3_1)
      ensures StepIs(old(View()), e, View())
      ensures |uplink| <= 1 && (uplink != {} <==> stage == D6) && (connectionEstablished <==> stage == D6)
    {
      hide Inv, Waits, StepIs, OnTick, OnPong, OnReferrers, OnDisconnected;
      threw := false;
      match e {
        case Tick(alarm) => threw := OnTickAlarm(alarm);
        case Pong(_, _, _, _, _) => threw := HandlePong(e);
        case Referrers(addresses) => HandleReferrers(addresses);
        case Disconnected(a) => HandleDisconnected(a);
        case ConnectFailed(a) => HandleDisconnected(a);
      }
      OneUplink(View());
    }
  }

  lemma {:induction false} OneUplink(s: Node)
    requires Inv(s)
    ensures |s.uplink| <= 1 && (s.uplink != {} <==> s.stage == D6) && (s.established <==> s.stage == D6)
  {
    if s.stage == D6 {
      var u := ConnectedFacts(s);
    }
  }

  lemma {:induction false} SoundAlarms(s: Node)
    requires Inv(s)
    ensures AlarmsSound(s)
  {
  }

  lemma {:induction false} RestartedFacts(s: Node)
    ensures var t := StartD2(s); t.stage in {D2, D21} && t.uplink == {} && t.ponged == {} && !t.established
  {
  }

  lemma {:induction false} NothingToPick(s: Node, s': Node)
    requires s.ponged == {} && EstablishesSome(s, s')
    ensures s' == s
  {
  }
}
