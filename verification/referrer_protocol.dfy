/** How a referrer node finds and keeps its uplink: the states, the events, and what each event does. */
module ReferrerProtocol {
  datatype Addr = Addr(ip: nat, port: nat)

  /** Searching (D2, D21, D3, D3_1), switching over (D4), connected (D6). */
  datatype Stage = D2 | D21 | D3 | D3_1 | D4 | D6

  datatype Timer = T001 | T002 | T007 | T008 | T009 | T012 | T020 | T040

  /** Alarms are told apart by timer and data; some carry the address they are about. */
  datatype Alarm = Alarm(timer: Timer, data: Data)

  datatype Data = None | About(addr: Addr)

  datatype PingType = PT_CACHED | PT_CAPS_SHORT | PT_MASTER_SHORT | PT_CAPS_LONG | PT_MASTER_LONG

  /** Which alarms are about an address. */
  predicate HasAddress(t: Timer) {
    t == T007 || t == T008 || t == T009
  }

  /** Messages that a node sends: pings carry the number of the connection attempt. */
  datatype Msg = Ping(dest: Addr, pingType: PingType, cs: int) | GetReferrers(dest: Addr) | Register(dest: Addr)

  /** A pong that counts: the node that answered and the name by which it sees us. */
  datatype Ponged = Ponged(addr: Addr, visible: Addr)

  datatype Node = Node(
    caps: set<Addr>,           // the top servers, from the configuration
    ownPort: nat,
    cs: int,                   // number of the connection attempt
    stage: Stage,
    uplink: set<Addr>,
    established: bool,
    ponged: set<Ponged>,       // pongs of this attempt
    neighbours: set<Addr>,
    externals: set<Addr>,      // names by which others see us
    alarms: map<Alarm, int>,   // armed alarms, with the attempt that armed each
    sent: set<Msg>)

  datatype Event =
    | Tick(alarm: Alarm)
    | Pong(own: bool, cs: int, pingType: PingType, addr: Addr, visible: Addr)
    | Referrers(addresses: set<Addr>)
    | Disconnected(addr: Addr)
    | ConnectFailed(addr: Addr)

  // The steps that handlers are made of.

  function Arm(s: Node, timer: Timer, data: Data): Node {
    s.(alarms := s.alarms[Alarm(timer, data) := s.cs])
  }

  function Stop(s: Node, timer: Timer, data: Data): Node {
    s.(alarms := s.alarms - {Alarm(timer, data)})
  }

  function Send(s: Node, m: Msg): Node {
    s.(sent := s.sent + {m})
  }

  function PingAll(s: Node, dests: set<Addr>): Node {
    s.(sent := s.sent + set a | a in dests :: Ping(a, PT_CACHED, s.cs))
  }

  /** Pinging the top servers. */
  function StartD21(s: Node): Node {
    Arm(PingAll(s.(stage := D21), s.caps), T001, None)
  }

  /** A new attempt: everything known about the old one is dropped, except alarms, which keep its number. */
  function StartD2(s: Node): Node {
    var again := s.(cs := s.cs + 1, stage := D2, uplink := {}, established := false, ponged := {});
    var s1 := Arm(again, T001, None);
    if s.neighbours != {} then Arm(PingAll(s1.(neighbours := {}), s.neighbours - s.caps), T040, None)
    else StartD21(s1)
  }

  /** Asking a node that answered for referrers. */
  function StartD3(s: Node, a: Addr): Node {
    Arm(Arm(Send(s.(stage := D3), GetReferrers(a)), T002, None), T001, None)
  }

  function RegisterAt(s: Node, a: Addr): Node {
    Arm(Send(s, Register(a)), T012, None)
  }

  function StartD6(s: Node, a: Addr): Node {
    Arm(Send(s.(stage := D6), Ping(a, PT_CAPS_SHORT, s.cs)), T007, About(a))
  }

  /** Taking a node that answered as uplink. */
  function Establish(s: Node, a: Addr): Node {
    StartD6(RegisterAt(Stop(s.(stage := D4), T001, None).(established := true, uplink := s.uplink + {a}), a), a)
  }

  /** The uplink at this address, if it is one, is lost: what d4_on_disconnected does. */
  function Lose(s: Node, a: Addr): Node {
    if a in s.uplink then StartD2(s) else s
  }

  /** ... and what d6_on_disconnected does. */
  function LoseAndStop(s: Node, a: Addr): Node {
    if a in s.uplink then StartD2(Stop(Stop(Stop(s, T007, About(a)), T008, About(a)), T009, About(a))) else s
  }

  /** A loop over the pongs establishes the first entry whose name is no top server's, else the first at all. */
  ghost predicate EstablishesSome(s: Node, s': Node) {
    if exists p :: p in s.ponged && p.visible !in s.caps
    then exists p :: p in s.ponged && p.visible !in s.caps && s' == Establish(s, p.addr)
    else if s.ponged != {} then exists p :: p in s.ponged && s' == Establish(s, p.addr)
    else s' == s
  }

  // What each event does. The flag tells whether the handler ends with an exception.

  /** An alarm that is armed goes off; armed by an earlier attempt it has no effect. */
  ghost predicate OnTick(s0: Node, alarm: Alarm, s': Node, threw: bool) {
    && alarm in s0.alarms
    && var s := s0.(alarms := s0.alarms - {alarm});
       if s0.alarms[alarm] != s.cs then s' == s && !threw
       else OnOwnTick(s, alarm, s', threw)
  }

  ghost predicate OnOwnTick(s: Node, alarm: Alarm, s': Node, threw: bool) {
    match alarm
    case Alarm(T001, _) => s' == StartD2(s) && !threw
    case Alarm(T002, _) => (if s.stage == D3 then EstablishesSome(s, s') else s' == s) && !threw
    case Alarm(T012, _) =>
      if s.uplink == {} then s' == s && threw
      else !threw && exists a :: a in s.uplink && s' == RegisterAt(s, a)
    case Alarm(T020, _) => (if s.ponged != {} then EstablishesSome(s, s') else s' == Arm(s, T001, None)) && !threw
    case Alarm(T040, _) => s' == (if s.stage == D2 then StartD21(s) else s) && !threw
    case Alarm(T007, About(a)) =>
      s' == Arm(Send(s, Ping(a, if a in s.caps then PT_CAPS_SHORT else PT_MASTER_SHORT, s.cs)), T007, About(a))
        && !threw
    case Alarm(T008, About(a)) =>
      s' == (if s.stage == D6 then Send(s, Ping(a, if a in s.caps then PT_CAPS_LONG else PT_MASTER_LONG, s.cs)) else s)
        && !threw
    case Alarm(T009, About(a)) => s' == LoseAndStop(s, a) && !threw
    case _ => s' == s && !threw
  }

  /** Recording a pong of this attempt. */
  function Record(s: Node, addr: Addr, visible: Addr): Node {
    s.(ponged := s.ponged + {Ponged(addr, visible)}, neighbours := s.neighbours + {addr},
       externals := s.externals + {Addr(visible.ip, s.ownPort)})
  }

  /** A node that is no top server and sees us by this name is taken. */
  ghost predicate NamedTaken(s: Node, visible: Addr, s': Node) {
    exists p ::
      (p in s.ponged && p.addr !in s.caps && p.visible == visible && s' == Establish(Stop(s, T020, None), p.addr))
  }

  /** In stage D3_1: the node that now sees us by this name, if it is no top server, becomes the uplink at once. */
  ghost predicate OnPongInD31(s: Node, visible: Addr, s': Node, threw: bool) {
    if exists p :: p in s.ponged && p.addr !in s.caps && p.visible == visible
    then !threw && NamedTaken(s, visible, s')
    else if exists p :: p in s.ponged && p.addr in s.caps
    then exists p :: p in s.ponged && p.addr in s.caps &&
           if p.visible != visible then s' == s && threw else s' == Establish(Stop(s, T020, None), p.addr) && !threw
    else s' == s && !threw
  }

  ghost predicate OnPong(s0: Node, e: Event, s': Node, threw: bool)
    requires e.Pong?
  {
    if e.own || e.cs != s0.cs then s' == s0 && !threw
    else
      var s := Record(s0, e.addr, e.visible);
      match e.pingType
      case PT_CACHED =>
        if (s.stage == D2 && e.addr !in s.caps) || (s.stage == D21 && e.addr in s.caps)
        then s' == StartD3(s, e.addr) && !threw
        else if s.stage == D3_1 then OnPongInD31(s, e.visible, s', threw)
        else s' == s && !threw
      case _ => s' == OnPongWhenConnected(s, e) && !threw
  }

  /** The short pong's handler: the short pings end, the wait for a long pong begins. */
  function AfterShortPong(s: Node, a: Addr): Node {
    AwaitLong(Stop(Stop(Stop(s, T007, About(a)), T008, About(a)), T009, About(a)), a)
  }

  /** The uplink answered: the next ping is a long one, and it must be answered in time. */
  function OnPongWhenConnected(s: Node, e: Event): Node
    requires e.Pong?
  {
    match e.pingType
    case PT_CACHED => s
    case PT_CAPS_SHORT => AfterShortPong(s, e.addr)
    case PT_MASTER_SHORT => AfterShortPong(s, e.addr)
    case PT_CAPS_LONG => AwaitLong(s, e.addr)
    case PT_MASTER_LONG => AwaitLong(s, e.addr)
  }

  function AwaitLong(s: Node, a: Addr): Node {
    Arm(Arm(s, T008, About(a)), T009, About(a))
  }

  /** The answer to the request for referrers. */
  ghost predicate OnReferrers(s0: Node, addresses: set<Addr>, s': Node) {
    if s0.stage != D3 then s' == s0
    else
      var s := Arm(Stop(s0, T002, None), T001, None);
      if addresses == {} then EstablishesSome(s, s')
      else s' == Arm(PingAll(s, addresses).(stage := D3_1), T020, None)
  }

  /** Both handlers run for every disconnect and every failed connect. */
  function OnDisconnected(s: Node, a: Addr): Node {
    LoseAndStop(Lose(s, a), a)
  }

  /** One event, handled from beginning to end. */
  ghost predicate Next(s: Node, e: Event, s': Node, threw: bool) {
    match e
    case Tick(alarm) => OnTick(s, alarm, s', threw)
    case Pong(_, _, _, _, _) => OnPong(s, e, s', threw)
    case Referrers(addresses) => OnReferrers(s, addresses, s') && !threw
    case Disconnected(a) => s' == OnDisconnected(s, a) && !threw
    case ConnectFailed(a) => s' == OnDisconnected(s, a) && !threw
  }
}
