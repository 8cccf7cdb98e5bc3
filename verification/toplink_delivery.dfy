/** Requests on their way up to a top server. Each node on the way adds its cookie to the request. */
module ToplinkDelivery {
  type Cookie = nat

  datatype Uplink = NoUplink | Uplink(to: Cookie)

  /** What matters of a node: whether it is a top server, and its uplink. */
  datatype Node = Node(top: bool, uplink: Uplink)

  type Net = map<Cookie, Node>

  /** Where a request is: about to be handled by a node, or at its end. */
  datatype Place =
    | At(node: Cookie, fromAcceptor: bool, uuid: set<Cookie>)
    | Delivered(node: Cookie)
    | CycleClosed(node: Cookie)
    | NotConnected(node: Cookie)
    | Rejected(node: Cookie)
    | Lost

  /** All uplinks lead to nodes of the network. */
  ghost predicate Closed(net: Net, nodes: set<Cookie>) {
    net.Keys == nodes && forall n :: n in net && net[n].uplink.Uplink? ==> net[n].uplink.to in nodes
  }

  /** How a node handles a request. */
  function Handle(self: Cookie, node: Node, fromAcceptor: bool, uuid: set<Cookie>): Place {
    if node.top then Delivered(self)
    else if fromAcceptor && self in uuid then CycleClosed(self)
    else if !fromAcceptor && uuid != {} then Rejected(self)
    else match node.uplink
      case NoUplink => NotConnected(self)
      case Uplink(to) => At(to, true, uuid + {self})
  }

  /**
   * The handler: it closes the connection on a cycle and throws when it rejects or has no uplink. What it passes on
   * has one cookie more, its own, and goes to its uplink.
   */
  method OnToplinkDeliverREQ(self: Cookie, node: Node, fromAcceptor: bool, uuid: set<Cookie>) returns (next: Place)
    ensures next.At? ==>
      self !in uuid && next.uuid == uuid + {self} && next.fromAcceptor && node.uplink == Uplink(next.node)
    ensures !next.At? ==> next in {Delivered(self), CycleClosed(self), NotConnected(self), Rejected(self)}
    ensures next.Delivered? <==> node.top
    ensures next.CycleClosed? ==> self in uuid
    ensures next.Rejected? ==> !fromAcceptor && uuid != {}
    ensures next.NotConnected? ==> node.uplink == NoUplink && self !in uuid
    ensures next == Handle(self, node, fromAcceptor, uuid)
  {
    if node.top {
      return Delivered(self);
    }
    var cookies := uuid;
    if fromAcceptor {
      if self in cookies {
        return CycleClosed(self);
      }
      cookies := cookies + {self};
    } else {
      if cookies != {} {
        return Rejected(self);
      }
      cookies := cookies + {self};
    }
    if node.uplink.Uplink? {
      next := At(node.uplink.to, true, cookies);
    } else {
      next := NotConnected(self);
    }
  }

  /** One hop, in the network as it is at that time; the request may get lost between nodes. */
  ghost predicate Hop(net: Net, p: Place, p': Place) {
    && p.At? && p.node in net
    && (p' == Handle(p.node, net[p.node], p.fromAcceptor, p.uuid)
        || (Handle(p.node, net[p.node], p.fromAcceptor, p.uuid).At? && p' == Lost))
  }

  /** A run of a request; uplinks may change between any two hops. */
  ghost predicate IsRun(nodes: set<Cookie>, nets: seq<Net>, run: seq<Place>) {
    && |run| == |nets| + 1 && (forall i :: 0 <= i < |nets| ==> Closed(nets[i], nodes))
    && (run[0].At? ==> run[0].node in nodes)
    && forall i :: 0 <= i < |nets| ==> Hop(nets[i], run[i], run[i + 1])
  }

  /** Node run[i] passes the request on. */
  ghost predicate Forwards(run: seq<Place>, i: int) {
    0 <= i < |run| - 1 && run[i].At? && (run[i + 1].At? || run[i + 1].Lost?)
  }

  lemma {:induction false} StaysInside(nodes: set<Cookie>, nets: seq<Net>, run: seq<Place>, i: nat)
    requires IsRun(nodes, nets, run) && i < |run| && run[i].At?
    ensures run[i].node in nodes && (i > 0 ==> run[i].fromAcceptor)
  {
    if i > 0 {
      assert Hop(nets[i - 1], run[i - 1], run[i]) && Closed(nets[i - 1], nodes);
    }
  }

  /** Cookies are only added, and every node that has passed the request on is among them. */
  lemma {:induction false} CookiesKept(nodes: set<Cookie>, nets: seq<Net>, run: seq<Place>, i: nat, j: nat)
    requires IsRun(nodes, nets, run) && i < j < |run| && run[j].At?
    ensures run[i].At? && run[i].uuid <= run[j].uuid && run[i].node in run[j].uuid
  {
    assert Hop(nets[j - 1], run[j - 1], run[j]);
    if i < j - 1 {
      CookiesKept(nodes, nets, run, i, j - 1);
    }
  }

  /** Whatever the uplinks do, no node passes a request on twice. */
  lemma {:induction false} ForwardedOnce(nodes: set<Cookie>, nets: seq<Net>, run: seq<Place>, i: nat, j: nat)
    requires IsRun(nodes, nets, run) && i < j && Forwards(run, i) && Forwards(run, j)
    ensures run[i].node != run[j].node
  {
    CookiesKept(nodes, nets, run, i, j);
    StaysInside(nodes, nets, run, j);
    assert Hop(nets[j], run[j], run[j + 1]);
  }

  lemma {:induction false} OneCookieMore(nodes: set<Cookie>, uuid: set<Cookie>, n: Cookie)
    requires n in nodes && n !in uuid
    ensures |nodes - (uuid + {n})| + 1 == |nodes - uuid|
  {
    assert nodes - uuid == (nodes - (uuid + {n})) + {n};
  }

  /** Each hop between nodes uses up one of the nodes whose cookie the request did not have: every run stops. */
  lemma {:induction false} HopsBounded(nodes: set<Cookie>, nets: seq<Net>, run: seq<Place>, i: nat)
    requires IsRun(nodes, nets, run) && i < |run| && run[i].At?
    ensures run[0].At? && i + |nodes - run[i].uuid| == |nodes - run[0].uuid|
  {
    if i > 0 {
      assert Hop(nets[i - 1], run[i - 1], run[i]);
      StaysInside(nodes, nets, run, i - 1);
      HopsBounded(nodes, nets, run, i - 1);
      OneCookieMore(nodes, run[i - 1].uuid, run[i - 1].node);
    }
  }

  /**
   * How a run that is not lost can end: at a top server, at a node that had handled the request before (or whose
   * cookie it brought along), at a node without an uplink, or at once, rejected, if a local request brings cookies.
   */
  lemma {:induction false} HowRunsEnd(nodes: set<Cookie>, nets: seq<Net>, run: seq<Place>, k: nat)
    requires IsRun(nodes, nets, run) && 0 < k < |run|
    ensures match run[k]
      case At(_, _, _) => true
      case Delivered(n) => n in nodes && nets[k - 1][n].top
      case CycleClosed(n) =>
        (exists j :: 0 <= j < k - 1 && Forwards(run, j) && run[j].node == n) || (run[0].At? && n in run[0].uuid)
      case NotConnected(n) => n in nodes && nets[k - 1][n].uplink == NoUplink
      case Rejected(n) => k == 1 && run[0].At? && !run[0].fromAcceptor && run[0].uuid != {}
      case Lost => Forwards(run, k - 1)
  {
    assert Hop(nets[k - 1], run[k - 1], run[k]);
    StaysInside(nodes, nets, run, k - 1);
    if run[k].CycleClosed? {
      CookieFrom(nodes, nets, run, k - 1, run[k].node);
    }
  }

  /** Where a cookie comes from. */
  lemma {:induction false} CookieFrom(nodes: set<Cookie>, nets: seq<Net>, run: seq<Place>, i: nat, n: Cookie)
    requires IsRun(nodes, nets, run) && i < |run| && run[i].At? && n in run[i].uuid
    ensures (exists j :: 0 <= j < i && Forwards(run, j) && run[j].node == n) || (run[0].At? && n in run[0].uuid)
  {
    if i > 0 {
      assert Hop(nets[i - 1], run[i - 1], run[i]);
      assert Forwards(run, i - 1);
      if n in run[i - 1].uuid {
        CookieFrom(nodes, nets, run, i - 1, n);
      }
    }
  }

  // Networks whose uplinks do not change.

  /** Where a request ends that nothing loses. */
  function Route(net: Net, nodes: set<Cookie>, p: Place): (r: Place)
    requires Closed(net, nodes) && (p.At? ==> p.node in nodes)
    ensures !r.At?
    decreases p.At?, if p.At? then |nodes - p.uuid| else 0
  {
    if !p.At? then p
    else
      var p' := Handle(p.node, net[p.node], p.fromAcceptor, p.uuid);
      if p'.At? then
        OneCookieMore(nodes, p.uuid, p.node);
        Route(net, nodes, p')
      else p'
  }

  /** The node k uplinks above n, if there is one below or at the first top server. */
  function Above(net: Net, n: Cookie, k: nat): Uplink {
    if k == 0 then Uplink(n)
    else match Above(net, n, k - 1)
      case NoUplink => NoUplink
      case Uplink(m) => if m in net && !net[m].top then net[m].uplink else NoUplink
  }

  ghost predicate IsAbove(net: Net, n: Cookie, k: nat, t: Cookie) {
    Above(net, n, k) == Uplink(t)
  }

  lemma {:induction false} AboveAdd(net: Net, n: Cookie, a: nat, b: nat)
    ensures Above(net, n, a + b) == match Above(net, n, a) case NoUplink => NoUplink case Uplink(m) => Above(net, m, b)
  {
    if b > 0 {
      AboveAdd(net, n, a, b - 1);
    }
  }

  /** A node at which the chain of uplinks ends: a top server, or a node without an uplink. */
  ghost predicate Ends(net: Net, t: Cookie) {
    t in net && (net[t].top || net[t].uplink == NoUplink)
  }

  /** The chain of uplinks from n ends at t. */
  ghost predicate LeadsTo(net: Net, n: Cookie, t: Cookie) {
    Ends(net, t) && exists k: nat :: IsAbove(net, n, k, t)
  }

  lemma {:induction false} EndsNow(net: Net, n: Cookie)
    requires Ends(net, n)
    ensures LeadsTo(net, n, n) && forall t :: LeadsTo(net, n, t) ==> t == n
  {
    assert IsAbove(net, n, 0, n) && Above(net, n, 1) == NoUplink;
    forall t | LeadsTo(net, n, t)
      ensures t == n
    {
      var k: nat :| IsAbove(net, n, k, t);
      if k > 0 {
        AboveAdd(net, n, 1, k - 1);
      }
    }
  }

  lemma {:induction false} LeadsOn(net: Net, n: Cookie, m: Cookie, t: Cookie)
    requires n in net && !net[n].top && net[n].uplink == Uplink(m)
    ensures LeadsTo(net, n, t) <==> LeadsTo(net, m, t)
  {
    assert Above(net, n, 0) == Uplink(n) && Above(net, n, 1) == Uplink(m);
    if LeadsTo(net, n, t) {
      var k: nat :| IsAbove(net, n, k, t);
      if k == 0 {
        assert false;
      } else {
        AboveAdd(net, n, 1, k - 1);
        assert IsAbove(net, m, k - 1, t);
      }
    }
    if LeadsTo(net, m, t) {
      var k: nat :| IsAbove(net, m, k, t);
      AboveAdd(net, n, 1, k);
      assert IsAbove(net, n, 1 + k, t);
    }
  }

  /** From a node on a cycle the chain never ends. */
  lemma {:induction false} CycleNeverEnds(net: Net, n: Cookie, l: nat, k: nat, t: Cookie)
    requires l > 0 && IsAbove(net, n, l, n) && Ends(net, t)
    ensures !IsAbove(net, n, k, t)
    decreases k
  {
    if IsAbove(net, n, k, t) {
      if k >= l {
        AboveAdd(net, n, l, k - l);
        CycleNeverEnds(net, n, l, k - l, t);
      } else {
        AboveAdd(net, n, k, l - k);
        assert Above(net, t, 0) == Uplink(t) && Above(net, t, 1) == NoUplink;
        AboveAdd(net, t, 1, l - k - 1);
      }
    }
  }

  /** Every node whose cookie the request has lies below the node it is at. */
  ghost predicate Trail(net: Net, p: Place)
    requires p.At?
  {
    && (p.fromAcceptor || p.uuid == {})
    && forall c :: c in p.uuid ==> exists l: nat :: l > 0 && IsAbove(net, c, l, p.node)
  }

  lemma {:induction false} TrailGoesOn(net: Net, p: Place, m: Cookie)
    requires p.At? && Trail(net, p) && p.node in net && !net[p.node].top && net[p.node].uplink == Uplink(m)
    ensures Trail(net, At(m, true, p.uuid + {p.node}))
  {
    forall c | c in p.uuid + {p.node}
      ensures exists l: nat :: l > 0 && IsAbove(net, c, l, m)
    {
      assert Above(net, p.node, 0) == Uplink(p.node);
      if c == p.node {
        assert IsAbove(net, c, 1, m);
      } else {
        var l: nat :| l > 0 && IsAbove(net, c, l, p.node);
        assert IsAbove(net, c, l + 1, m);
      }
    }
  }

  /**
   * With uplinks that do not change, a request is delivered exactly to the top server that the chain of uplinks
   * leads to; it ends at a node without an uplink exactly if the chain does; and the chain never ends exactly if
   * the request is found to go round in a circle.
   */
  lemma {:induction false} RouteFollowsChain(net: Net, nodes: set<Cookie>, p: Place)
    requires Closed(net, nodes) && p.At? && p.node in nodes && Trail(net, p)
    ensures forall t :: Route(net, nodes, p) == Delivered(t) <==> LeadsTo(net, p.node, t) && net[t].top
    ensures forall t :: Route(net, nodes, p) == NotConnected(t) <==> LeadsTo(net, p.node, t) && !net[t].top
    ensures Route(net, nodes, p).CycleClosed? <==> forall t :: !LeadsTo(net, p.node, t)
    decreases |nodes - p.uuid|
  {
    var n := p.node;
    if net[n].top {
      EndsNow(net, n);
    } else if n in p.uuid {
      var l: nat :| l > 0 && IsAbove(net, n, l, n);
      forall t | Ends(net, t)
        ensures !LeadsTo(net, n, t)
      {
        forall k: nat
          ensures !IsAbove(net, n, k, t)
        {
          CycleNeverEnds(net, n, l, k, t);
        }
      }
    } else {
      match net[n].uplink
      case NoUplink => EndsNow(net, n);
      case Uplink(m) =>
        TrailGoesOn(net, p, m);
        OneCookieMore(nodes, p.uuid, n);
        RouteFollowsChain(net, nodes, At(m, true, p.uuid + {n}));
        forall t
          ensures LeadsTo(net, n, t) <==> LeadsTo(net, m, t)
        {
          LeadsOn(net, n, m, t);
        }
    }
  }

  /**
   * The nodes hand a request on from one to the next until it is at its end: at the top server that the chain of
   * uplinks leads to, at the node where the chain breaks off, or, on a circle, at a node that had it before.
   */
  method Deliver(net: Net, nodes: set<Cookie>, start: Place) returns (end: Place)
    requires Closed(net, nodes) && start.At? && start.node in nodes
    ensures end == Route(net, nodes, start)
    ensures Trail(net, start) ==> end.Delivered? || end.NotConnected? || end.CycleClosed?
    ensures Trail(net, start) && (end.Delivered? || end.NotConnected?) ==> LeadsTo(net, start.node, end.node)
    ensures Trail(net, start) && end.CycleClosed? ==> forall t :: !LeadsTo(net, start.node, t)
  {
    end := start;
    while end.At?
      invariant end.At? ==> end.node in nodes
      invariant Route(net, nodes, end) == Route(net, nodes, start)
      decreases end.At?, if end.At? then |nodes - end.uuid| else 0
    {
      ghost var p := end;
      end := OnToplinkDeliverREQ(end.node, net[end.node], end.fromAcceptor, end.uuid);
      if end.At? {
        OneCookieMore(nodes, p.uuid, p.node);
      }
    }
    if Trail(net, start) {
      RouteFollowsChain(net, nodes, start);
      NoRejection(net, nodes, start);
    }
  }

  lemma {:induction false} NoRejection(net: Net, nodes: set<Cookie>, p: Place)
    requires Closed(net, nodes) && p.At? && p.node in nodes && (p.fromAcceptor || p.uuid == {})
    ensures !Route(net, nodes, p).Rejected? && !Route(net, nodes, p).Lost?
    decreases |nodes - p.uuid|
  {
    var p' := Handle(p.node, net[p.node], p.fromAcceptor, p.uuid);
    if p'.At? {
      OneCookieMore(nodes, p.uuid, p.node);
      NoRejection(net, nodes, p');
    }
  }
}
