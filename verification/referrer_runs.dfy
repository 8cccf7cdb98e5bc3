/** Whole runs of a referrer node. */
module ReferrerRuns {
  import opened ReferrerProtocol
  import opened ReferrerSafety

  /** A node that has not been started. */
  ghost predicate Unstarted(s: Node) {
    s.alarms == map[] && s.uplink == {} && s.ponged == {} && !s.established && s.cs == 0
  }

  /** A run: the node is started, then one event after the other is handled; stopped alarms do not go off. */
  ghost predicate IsRun(init: Node, states: seq<Node>, events: seq<Event>) {
    && |states| == |events| + 1 && Unstarted(init) && states[0] == StartD2(init)
    && forall i :: 0 <= i < |events| ==> Handles(states[i], events[i], states[i + 1])
  }

  ghost predicate Handles(s: Node, e: Event, s': Node) {
    exists threw :: Next(s, e, s', threw)
  }

  /** The invariant holds in every state of every run. */
  lemma {:induction false} RunKeeps(init: Node, states: seq<Node>, events: seq<Event>, i: nat)
    requires IsRun(init, states, events) && i <= |events|
    ensures Inv(states[i])
  {
    hide Inv, Next;
    if i == 0 {
      StartD2Keeps(init);
    } else {
      RunKeeps(init, states, events, i - 1);
      assert Handles(states[i - 1], events[i - 1], states[i]);
      var threw :| Next(states[i - 1], events[i - 1], states[i], threw);
      StepKeeps(states[i - 1], events[i - 1], states[i], threw);
    }
  }

  /**
   * In every state of every run: the node is in stage D6 exactly if it has an uplink, and exactly if it says that its
   * connection is established; it never has two uplinks.
   */
  lemma {:induction false} ConnectedIffUplink(init: Node, states: seq<Node>, events: seq<Event>, i: nat)
    requires IsRun(init, states, events) && i <= |events|
    ensures var s := states[i];
      && (s.stage == D6 <==> s.uplink != {}) && (s.stage == D6 <==> s.established) && |s.uplink| <= 1
  {
    RunKeeps(init, states, events, i);
    var s := states[i];
    if s.stage == D6 {
      var u := ConnectedFacts(s);
    }
  }

  /** The alarm that takes the node on: the retry while it searches, the watch on its uplink while it is connected. */
  ghost predicate WillGoOn(s: Node) {
    if s.uplink == {} then Armed(s, T001, None)
    else forall u :: u in s.uplink ==> Armed(s, T007, About(u)) || Armed(s, T009, About(u))
  }

  /** The node never hangs silently. */
  lemma {:induction false} NeverSilent(init: Node, states: seq<Node>, events: seq<Event>, i: nat)
    requires IsRun(init, states, events) && i <= |events|
    ensures WillGoOn(states[i])
    ensures Armed(states[i], T012, None) ==> states[i].uplink != {}
  {
    RunKeeps(init, states, events, i);
    var s := states[i];
    if s.stage == D6 {
      var u := ConnectedFacts(s);
    }
  }

  // Where the uplink comes from.

  ghost predicate SameAttemptPongs(s: Node, e: Event, s': Node) {
    && s'.cs == s.cs
    && forall p :: p in s'.ponged ==>
       p in s.ponged || (e.Pong? && !e.own && e.cs == s.cs && p == Ponged(e.addr, e.visible))
  }

  /** A step keeps the attempt and at most adds the pong just received, or starts the next attempt without pongs. */
  lemma {:induction false} PongsOfStep(s: Node, e: Event, s': Node, threw: bool)
    requires Inv(s) && Next(s, e, s', threw)
    ensures SameAttemptPongs(s, e, s') || (s'.cs == s.cs + 1 && s'.ponged == {} && s'.uplink == {})
  {
    hide OnTick, OnPong, EstablishesSome, OnDisconnected;
    match e
    case Tick(alarm) => PongsOfTick(s, alarm, s', threw);
    case Pong(_, _, _, _, _) => PongsOfPong(s, e, s', threw);
    case Referrers(addresses) => PongsOfReferrers(s, addresses, s');
    case Disconnected(a) => DisconnectRestartsOnce(s, a);
    case ConnectFailed(a) => DisconnectRestartsOnce(s, a);
  }

  lemma {:induction false} PongsOfReferrers(s: Node, addresses: set<Addr>, s': Node)
    requires OnReferrers(s, addresses, s')
    ensures SamePongs(s, s')
  {
    hide EstablishesSome;
    var s1 := Arm(Stop(s, T002, None), T001, None);
    if EstablishesSome(s1, s') {
      EstablishesSomePongs(s1, s');
    }
  }

  /** Attempt and pongs stay. */
  ghost predicate SamePongs(s: Node, s': Node) {
    s'.cs == s.cs && s'.ponged == s.ponged
  }

  lemma {:induction false} EstablishesSomePongs(s: Node, s': Node)
    requires EstablishesSome(s, s')
    ensures SamePongs(s, s')
  {
    forall a
      ensures SamePongs(s, Establish(s, a))
    {
      EstablishPongs(s, a);
    }
    hide Establish;
  }

  lemma {:induction false} EstablishPongs(s: Node, a: Addr)
    ensures SamePongs(s, Establish(s, a))
  {
  }

  lemma {:induction false} StartD2Pongs(s: Node)
    ensures StartD2(s).cs == s.cs + 1 && StartD2(s).ponged == {} && StartD2(s).uplink == {}
  {
  }

  lemma {:induction false} LosePongs(s: Node, a: Addr)
    ensures var s' := LoseAndStop(s, a); SamePongs(s, s') || (s'.cs == s.cs + 1 && s'.ponged == {} && s'.uplink == {})
  {
    StartD2Pongs(Stop(Stop(Stop(s, T007, About(a)), T008, About(a)), T009, About(a)));
    hide StartD2;
  }

  lemma {:induction false} PongsOfTick(s: Node, alarm: Alarm, s': Node, threw: bool)
    requires OnTick(s, alarm, s', threw)
    ensures SamePongs(s, s') || (s'.cs == s.cs + 1 && s'.ponged == {} && s'.uplink == {})
  {
    hide EstablishesSome, StartD2, LoseAndStop;
    var s1 := s.(alarms := s.alarms - {alarm});
    StartD2Pongs(s1);
    if alarm.data.About? {
      LosePongs(s1, alarm.data.addr);
    }
    if EstablishesSome(s1, s') {
      EstablishesSomePongs(s1, s');
    }
  }

  lemma {:induction false} PongsOfPong(s: Node, e: Event, s': Node, threw: bool)
    requires e.Pong? && OnPong(s, e, s', threw)
    ensures SameAttemptPongs(s, e, s')
  {
    hide OnPongInD31, OnPongWhenConnected;
    if !e.own && e.cs == s.cs {
      var s1 := Record(s, e.addr, e.visible);
      WhenConnectedPongs(s1, e);
      if OnPongInD31(s1, e.visible, s', threw) {
        InD31Pongs(s1, e.visible, s', threw);
      }
    }
  }

  lemma {:induction false} WhenConnectedPongs(s: Node, e: Event)
    requires e.Pong?
    ensures SamePongs(s, OnPongWhenConnected(s, e))
  {
  }

  lemma {:induction false} InD31Pongs(s: Node, visible: Addr, s': Node, threw: bool)
    requires OnPongInD31(s, visible, s', threw)
    ensures SamePongs(s, s')
  {
    forall a
      ensures SamePongs(s, Establish(Stop(s, T020, None), a))
    {
      EstablishPongs(Stop(s, T020, None), a);
    }
    hide Establish, Stop;
  }

  /** p was received in a pong of the attempt that is current in state i. */
  ghost predicate Received(states: seq<Node>, events: seq<Event>, i: nat, p: Ponged)
    requires i < |states|
  {
    exists j :: 0 <= j < i && j < |events| && PongFor(events[j], p, states[i].cs)
  }

  ghost predicate PongFor(e: Event, p: Ponged, cs: int) {
    e.Pong? && !e.own && e.cs == cs && e.addr == p.addr && e.visible == p.visible
  }

  lemma {:induction false} PongsReceived(init: Node, states: seq<Node>, events: seq<Event>, i: nat)
    requires IsRun(init, states, events) && i <= |events|
    ensures forall p :: p in states[i].ponged ==> Received(states, events, i, p)
  {
    hide Inv, Next;
    if i > 0 {
      var s, e, s' := states[i - 1], events[i - 1], states[i];
      PongsReceived(init, states, events, i - 1);
      RunKeeps(init, states, events, i - 1);
      assert Handles(s, e, s');
      var threw :| Next(s, e, s', threw);
      PongsOfStep(s, e, s', threw);
      forall p | p in s'.ponged
        ensures Received(states, events, i, p)
      {
        if p in s.ponged {
          var j :| 0 <= j < i - 1 && PongFor(events[j], p, s.cs);
        } else {
          assert PongFor(events[i - 1], p, s'.cs);
        }
      }
    }
  }

  /** Every uplink has answered with a pong of the current attempt. */
  lemma {:induction false} UplinkAnswered(init: Node, states: seq<Node>, events: seq<Event>, i: nat, u: Addr)
    requires IsRun(init, states, events) && i <= |events| && u in states[i].uplink
    ensures exists j ::
      (0 <= j < i && events[j].Pong? && !events[j].own && events[j].cs == states[i].cs && events[j].addr == u)
  {
    RunKeeps(init, states, events, i);
    PongsReceived(init, states, events, i);
    var w := ConnectedFacts(states[i]);
    var v :| Ponged(u, v) in states[i].ponged;
    assert Received(states, events, i, Ponged(u, v));
    var j :| 0 <= j < i && PongFor(events[j], Ponged(u, v), states[i].cs);
  }

  // When the uplink is given up.

  /** What ends a connection to u: it is reported lost, or the watch on it goes off. */
  ghost predicate Ends(s: Node, e: Event, u: Addr) {
    match e
    case Disconnected(a) => a == u
    case ConnectFailed(a) => a == u
    case Tick(alarm) => alarm == Alarm(T009, About(u)) && Armed(s, T009, About(u))
    case _ => false
  }

  /**
   * A connected node keeps its uplink and its attempt until the connection ends, and then starts exactly one new
   * attempt.
   */
  lemma {:induction false} UplinkKeptUntilItEnds(s: Node, e: Event, s': Node, threw: bool, u: Addr)
    requires Inv(s) && Next(s, e, s', threw) && u in s.uplink
    ensures if Ends(s, e, u) then s'.uplink == {} && s'.cs == s.cs + 1 && s'.stage in {D2, D21}
      else s'.uplink == s.uplink && s'.cs == s.cs && s'.stage == D6
  {
    var w := ConnectedFacts(s);
    match e
    case Tick(alarm) => TickWhenConnected(s, alarm, s', threw, u);
    case Pong(_, _, _, _, _) =>
    case Referrers(addresses) =>
    case Disconnected(a) => DisconnectRestartsOnce(s, a);
    case ConnectFailed(a) => DisconnectRestartsOnce(s, a);
  }

  lemma {:induction false} TickWhenConnected(s: Node, alarm: Alarm, s': Node, threw: bool, u: Addr)
    requires Inv(s) && OnTick(s, alarm, s', threw) && Watched(s, u) && s.stage == D6
    ensures if Ends(s, Tick(alarm), u) then s'.uplink == {} && s'.cs == s.cs + 1 && s'.stage in {D2, D21}
      else s'.uplink == s.uplink && s'.cs == s.cs && s'.stage == D6
  {
    hide EstablishesSome;
    assert s.alarms[alarm] == s.cs && alarm.timer == T001 ==> alarm == Alarm(T001, None);
    assert s.alarms[alarm] == s.cs && alarm.timer == T020 ==> alarm == Alarm(T020, None);
  }

  // Alarms that go off although they were stopped.

  /** A stopped alarm that goes off all the same. */
  ghost predicate LateTick(s: Node, alarm: Alarm, s': Node, threw: bool) {
    alarm !in s.alarms && (alarm.data.About? <==> HasAddress(alarm.timer)) && OnOwnTick(s, alarm, s', threw)
  }

  /** Which pongs the handlers' loops may pick. */
  ghost predicate MayPick(s: Node, p: Ponged) {
    p in s.ponged && (p.visible !in s.caps || forall o :: o in s.ponged ==> o.visible in s.caps)
  }

  /** It does no harm, unless it is T_020 of a connected node that could pick another node than its uplink. */
  lemma {:induction false} LateAlarmHarmless(s: Node, alarm: Alarm, s': Node, threw: bool)
    requires Inv(s) && LateTick(s, alarm, s', threw)
    requires alarm.timer == T020 && s.stage == D6 ==> forall p :: MayPick(s, p) ==> p.addr in s.uplink
    ensures Inv(s')
  {
    hide StartD2, StartD21, RegisterAt, LoseAndStop;
    assert s.alarms - {alarm} == s.alarms && s.(alarms := s.alarms) == s;
    match alarm.timer
    case T001 => StartD2Keeps(s);
    case T002 =>
      if s.stage == D3 {
        EstablishSomeKeeps(s, s');
      }
    case T012 => LateRegister(s, s', threw);
    case T020 => LateWaitOver(s, s');
    case T040 =>
      if s.stage == D2 {
        StartD21Keeps(s);
      }
    case T007 => PingShortKeeps(s, alarm.data.addr, s,
      Ping(alarm.data.addr, if alarm.data.addr in s.caps then PT_CAPS_SHORT else PT_MASTER_SHORT, s.cs));
    case T008 => SameAttemptKeeps(s, s');
    case T009 => TimeoutKeeps(s, s, alarm.data.addr);
  }

  lemma {:induction false} LateRegister(s: Node, s': Node, threw: bool)
    requires Inv(s) && Alarm(T012, None) !in s.alarms && OnOwnTick(s, Alarm(T012, None), s', threw)
    ensures Inv(s')
  {
    if s.uplink != {} {
      var u := ConnectedFacts(s);
      assert s.(alarms := s.alarms - {Alarm(T012, None)}) == s;
      RegisterKeeps(s, s, u);
    }
  }

  lemma {:induction false} LateWaitOver(s: Node, s': Node)
    requires Inv(s) && Alarm(T020, None) !in s.alarms
    requires if s.ponged != {} then EstablishesSome(s, s') else s' == Arm(s, T001, None)
    requires s.stage == D6 ==> forall p :: MayPick(s, p) ==> p.addr in s.uplink
    ensures Inv(s')
  {
    hide Establish, EstablishesSome;
    if Searching(s) {
      if s.ponged != {} {
        EstablishSomeKeeps(s, s');
      } else {
        SameAttemptKeeps(s, s');
      }
    } else {
      var u := ConnectedFacts(s);
      EstablishAgain(s, u);
      PickedIsUplink(s, s', u);
    }
  }

  lemma {:induction false} PickedIsUplink(s: Node, s': Node, u: Addr)
    requires EstablishesSome(s, s') && s.ponged != {} && forall p :: MayPick(s, p) ==> p.addr == u
    ensures s' == Establish(s, u)
  {
    hide Establish;
    var p :| p in s.ponged && s' == Establish(s, p.addr) && MayPick(s, p);
  }

  lemma {:induction false} EstablishAgain(s: Node, u: Addr)
    requires Inv(s) && s.stage == D6 && Watched(s, u)
    ensures Inv(Establish(s, u))
  {
    assert Watched(Establish(s, u), u);
  }

  /** Otherwise the node can end up with two uplinks. */
  lemma {:induction false} LateWaitHarmful(s: Node, p: Ponged) returns (s': Node)
    requires Inv(s) && s.stage == D6 && Alarm(T020, None) !in s.alarms && MayPick(s, p) && p.addr !in s.uplink
    ensures LateTick(s, Alarm(T020, None), s', false) && |s'.uplink| == 2 && !Inv(s')
  {
    var u := ConnectedFacts(s);
    s' := Establish(s, p.addr);
    assert s'.uplink == {u, p.addr};
  }

  /** Such a state is reached when two nodes answer and one of them is taken before the wait is over. */
  lemma {:induction false} LateWaitReachable(init: Node, a: Addr, b: Addr, x: Addr, y: Addr)
      returns (states: seq<Node>, events: seq<Event>)
    requires Unstarted(init) && init.caps == {} && init.neighbours == {a, b} && a != b && x != y
    ensures IsRun(init, states, events)
    ensures var s := states[|events|];
      s.stage == D6 && Alarm(T020, None) !in s.alarms && MayPick(s, Ponged(b, y)) && b !in s.uplink
  {
    hide StartD2, StartD3, Record, OnPong, OnReferrers;
    var e0, e1, e2 := Pong(false, 1, PT_CACHED, a, x), Pong(false, 1, PT_CACHED, b, y), Referrers({a});
    var s0 := StartD2(init);
    StartFacts(init);
    var s1 := FirstPong(s0, a, x);
    var s2 := SecondPong(s1, b, y);
    var s3 := ReferrersGiven(s2, {a});
    var s4 := ThirdPong(s3, a, x);
    states, events := [s0, s1, s2, s3, s4], [e0, e1, e2, e0];
    assert Next(s0, e0, s1, false) && Next(s1, e1, s2, false) && Next(s2, e2, s3, false) && Next(s3, e0, s4, false);
    assert Handles(s0, e0, s1) && Handles(s1, e1, s2) && Handles(s2, e2, s3) && Handles(s3, e0, s4);
  }

  lemma {:induction false} StartFacts(init: Node)
    requires Unstarted(init) && init.caps == {} && init.neighbours != {}
    ensures var s := StartD2(init); s.stage == D2 && s.cs == 1 && s.caps == {} && s.ponged == {} && s.uplink == {}
  {
  }

  lemma {:induction false} FirstPong(s: Node, a: Addr, x: Addr) returns (s': Node)
    requires s.stage == D2 && s.caps == {} && s.ponged == {} && s.uplink == {}
    ensures OnPong(s, Pong(false, s.cs, PT_CACHED, a, x), s', false)
    ensures s'.stage == D3 && s'.cs == s.cs && s'.caps == {} && s'.ponged == {Ponged(a, x)} && s'.uplink == {}
  {
    s' := StartD3(Record(s, a, x), a);
  }

  lemma {:induction false} SecondPong(s: Node, b: Addr, y: Addr) returns (s': Node)
    requires s.stage == D3
    ensures OnPong(s, Pong(false, s.cs, PT_CACHED, b, y), s', false)
    ensures s'.stage == D3 && s'.cs == s.cs && s'.caps == s.caps && s'.ponged == s.ponged + {Ponged(b, y)}
      && s'.uplink == s.uplink
  {
    s' := Record(s, b, y);
  }

  lemma {:induction false} ReferrersGiven(s: Node, addresses: set<Addr>) returns (s': Node)
    requires s.stage == D3 && addresses != {}
    ensures OnReferrers(s, addresses, s')
    ensures s'.stage == D3_1 && s'.cs == s.cs && s'.caps == s.caps && s'.ponged == s.ponged && s'.uplink == s.uplink
  {
    s' := Arm(PingAll(Arm(Stop(s, T002, None), T001, None), addresses).(stage := D3_1), T020, None);
  }

  lemma {:induction false} ThirdPong(s: Node, a: Addr, x: Addr) returns (s': Node)
    requires s.stage == D3_1 && s.caps == {} && s.uplink == {}
    ensures OnPong(s, Pong(false, s.cs, PT_CACHED, a, x), s', false)
    ensures s'.stage == D6 && s'.caps == {} && s'.ponged == s.ponged + {Ponged(a, x)} && s'.uplink == {a}
    ensures Alarm(T020, None) !in s'.alarms
  {
    var r := Record(s, a, x);
    s' := Establish(Stop(r, T020, None), a);
    assert Ponged(a, x) in r.ponged;
  }
}
