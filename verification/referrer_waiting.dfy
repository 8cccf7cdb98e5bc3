/** What a referrer node has sent when it waits: nobody is waited for who has not been asked. */
module ReferrerWaiting {
  import opened ReferrerProtocol
  import opened ReferrerSafety
  import opened ReferrerRuns
  import opened ReferrerMessages

  /** Waiting for top servers, they have all been pinged; each wait has its alarm. */
  ghost predicate WaitsForAsked(s: Node) {
    && (s.stage == D2 ==> Armed(s, T040, None))
    && (s.stage == D21 ==> forall a :: a in s.caps ==> Ping(a, PT_CACHED, s.cs) in s.sent)
    && (s.stage == D3 ==> Armed(s, T002, None) && exists p :: p in s.ponged && GetReferrers(p.addr) in s.sent)
    && (s.stage == D3_1 ==> Armed(s, T020, None))
  }

  function LongPing(s: Node, u: Addr): Msg {
    Ping(u, if u in s.caps then PT_CAPS_LONG else PT_MASTER_LONG, s.cs)
  }

  /** An uplink has been registered at and pinged; a pong that is awaited has been asked for, or will be. */
  ghost predicate Maintained(s: Node, u: Addr) {
    && Register(u) in s.sent && Ping(u, PT_CAPS_SHORT, s.cs) in s.sent && Armed(s, T012, None)
    && (Armed(s, T007, About(u))
        || (Armed(s, T009, About(u)) && (Armed(s, T008, About(u)) || LongPing(s, u) in s.sent)))
  }

  /** Who has answered is a neighbour, and the name by which it sees us is known. */
  ghost predicate AnswersKept(s: Node) {
    forall p :: p in s.ponged ==> p.addr in s.neighbours && Addr(p.visible.ip, s.ownPort) in s.externals
  }

  ghost predicate Waits(s: Node) {
    WaitsForAsked(s) && AnswersKept(s) && forall u :: u in s.uplink ==> Maintained(s, u)
  }

  lemma {:induction false} SearchStarts(s: Node, e: Event, s': Node)
    requires Inv(s) && WaitsForAsked(s) && StepIs(s, e, s')
    ensures s'.stage == D2 ==> Armed(s', T040, None)
    ensures s'.stage == D21 ==> forall a :: a in s'.caps ==> Ping(a, PT_CACHED, s'.cs) in s'.sent
  {
    hide Inv, MayTake, MustTake, Arms, Stops;
    InvStage(s);
    if s'.stage == D2 {
      NeighboursAwaited(s, e, s');
    }
  }

  lemma {:induction false} NeighboursAwaited(s: Node, e: Event, s': Node)
    requires Inv(s) && WaitsForAsked(s) && StepIs(s, e, s') && s'.stage == D2
    ensures Armed(s', T040, None)
  {
    InvStage(s);
    hide Inv, MayTake, MustTake, Sends;
    assert AlarmIs(s, e, s', Alarm(T040, None));
  }

  lemma {:induction false} AnswerAwaited(s: Node, e: Event, s': Node)
    requires Inv(s) && WaitsForAsked(s) && StepIs(s, e, s')
    ensures s'.stage == D3 ==> Armed(s', T002, None)
    ensures s'.stage == D3_1 ==> Armed(s', T020, None)
  {
    InvStage(s);
    hide Inv, MayTake, Sends;
    assert AlarmIs(s, e, s', Alarm(T002, None)) && AlarmIs(s, e, s', Alarm(T020, None));
  }

  lemma {:induction false} AnswererAsked(s: Node, e: Event, s': Node)
    requires Inv(s) && WaitsForAsked(s) && StepIs(s, e, s') && s'.stage == D3
    ensures exists p :: p in s'.ponged && GetReferrers(p.addr) in s'.sent
  {
    InvStage(s);
    hide Inv, MayTake, MustTake, AlarmIs;
    if s.stage == D3 {
      var p :| p in s.ponged && GetReferrers(p.addr) in s.sent;
      assert p in s'.ponged;
    } else {
      assert Ponged(e.addr, e.visible) in s'.ponged && Sends(s, e, s', GetReferrers(e.addr));
    }
  }

  lemma {:induction false} WaitingKept(s: Node, e: Event, s': Node)
    requires Inv(s) && WaitsForAsked(s) && StepIs(s, e, s')
    ensures WaitsForAsked(s')
  {
    hide Inv, StepIs;
    SearchStarts(s, e, s');
    AnswerAwaited(s, e, s');
    if s'.stage == D3 {
      AnswererAsked(s, e, s');
    }
  }

  lemma {:induction false} TakenIsMaintained(s: Node, e: Event, s': Node, u: Addr)
    requires Inv(s) && StepIs(s, e, s') && u in s'.uplink && u !in s.uplink
    ensures Maintained(s', u)
  {
    InvStage(s);
    hide Inv;
    assert Taken(s, s', u);
    assert AlarmIs(s, e, s', Alarm(T012, None)) && AlarmIs(s, e, s', Alarm(T007, About(u)));
    assert Sends(s, e, s', Register(u)) && Sends(s, e, s', Ping(u, PT_CAPS_SHORT, s'.cs));
    hide MayTake;
  }

  lemma {:induction false} StillMaintained(s: Node, e: Event, s': Node, u: Addr)
    requires Inv(s) && StepIs(s, e, s') && u in s'.uplink && u in s.uplink && Maintained(s, u)
    ensures Maintained(s', u)
  {
    InvStage(s);
    hide Inv, MayTake, MustTake;
    assert !Restarts(s, e);
    assert AlarmIs(s, e, s', Alarm(T012, None)) && AlarmIs(s, e, s', Alarm(T007, About(u)));
    assert AlarmIs(s, e, s', Alarm(T008, About(u))) && AlarmIs(s, e, s', Alarm(T009, About(u)));
    assert LongPing(s', u) == LongPing(s, u);
  }

  lemma {:induction false} AnswersStayKept(s: Node, e: Event, s': Node)
    requires AnswersKept(s) && StepIs(s, e, s')
    ensures AnswersKept(s')
  {
  }

  lemma {:induction false} WaitsKept(s: Node, e: Event, s': Node)
    requires Inv(s) && Waits(s) && StepIs(s, e, s')
    ensures Waits(s')
  {
    hide Inv, StepIs, WaitsForAsked, AnswersKept, Maintained;
    WaitingKept(s, e, s');
    AnswersStayKept(s, e, s');
    forall u | u in s'.uplink
      ensures Maintained(s', u)
    {
      if u in s.uplink {
        StillMaintained(s, e, s', u);
      } else {
        TakenIsMaintained(s, e, s', u);
      }
    }
  }

  lemma {:induction false} StartWaits(s: Node)
    ensures Waits(StartD2(s))
  {
    StartD2Fields(s);
    StartD2Alarms(s, Alarm(T040, None));
    hide StartD2;
  }

  // Whole runs.

  lemma {:induction false} RunStepIs(init: Node, states: seq<Node>, events: seq<Event>, i: nat)
    requires IsRun(init, states, events) && i < |events|
    ensures Inv(states[i]) && StepIs(states[i], events[i], states[i + 1])
  {
    hide Inv, StepIs, Next, StartD2;
    RunKeeps(init, states, events, i);
    assert Handles(states[i], events[i], states[i + 1]);
    var threw :| Next(states[i], events[i], states[i + 1], threw);
    EveryStepIs(states[i], events[i], states[i + 1], threw);
  }

  /** In every state of every run, whoever is waited for has been asked, and the uplink is maintained. */
  lemma {:induction false} RunWaits(init: Node, states: seq<Node>, events: seq<Event>, i: nat)
    requires IsRun(init, states, events) && i <= |events|
    ensures Waits(states[i])
  {
    hide Inv, StepIs, Waits, StartD2, Handles;
    if i == 0 {
      StartWaits(init);
    } else {
      RunWaits(init, states, events, i - 1);
      RunStepIs(init, states, events, i - 1);
      WaitsKept(states[i - 1], events[i - 1], states[i]);
    }
  }

  /** State k is the first of its attempt. */
  ghost predicate AttemptBegins(states: seq<Node>, k: nat) {
    k < |states| && (k == 0 || states[k - 1].cs != states[k].cs)
  }

  /** The neighbours known when the attempt began. */
  function FormerNeighbours(init: Node, states: seq<Node>, k: nat): set<Addr>
    requires k <= |states|
  {
    if k == 0 then init.neighbours else states[k - 1].neighbours
  }

  /** In this attempt the neighbours that are no top servers have been pinged; if there were none, the top servers. */
  ghost predicate SearchPinged(former: set<Addr>, s: Node) {
    && (former != {} ==> forall a :: a in former && a !in s.caps ==> Ping(a, PT_CACHED, s.cs) in s.sent)
    && (former == {} ==> s.stage != D2 && forall a :: a in s.caps ==> Ping(a, PT_CACHED, s.cs) in s.sent)
  }

  lemma {:induction false} RestartPings(s: Node, e: Event, s': Node)
    requires StepIs(s, e, s') && s'.cs != s.cs
    ensures SearchPinged(s.neighbours, s')
  {
    assert Restarts(s, e);
    forall a | a in s.neighbours && a !in s.caps
      ensures Ping(a, PT_CACHED, s'.cs) in s'.sent
    {
      assert Sends(s, e, s', Ping(a, PT_CACHED, s'.cs));
    }
    if s.neighbours == {} {
      forall a | a in s.caps
        ensures Ping(a, PT_CACHED, s'.cs) in s'.sent
      {
        assert Sends(s, e, s', Ping(a, PT_CACHED, s'.cs));
      }
    }
  }

  lemma {:induction false} StillPinged(s: Node, e: Event, s': Node, former: set<Addr>)
    requires StepIs(s, e, s') && s'.cs == s.cs && SearchPinged(former, s)
    ensures SearchPinged(former, s')
  {
    hide Sends, UplinkIs;
    assert !Restarts(s, e);
  }

  lemma {:induction false} StartPings(s: Node)
    ensures SearchPinged(s.neighbours, StartD2(s))
  {
    hide StartD2;
    StartD2Fields(s);
  }

  /** Over the whole attempt: the former neighbours, or else the top servers, have been pinged with its number. */
  lemma {:induction false} NeighboursPinged(init: Node, states: seq<Node>, events: seq<Event>, k: nat, i: nat)
    requires IsRun(init, states, events) && k <= i <= |events| && AttemptBegins(states, k)
    requires states[k].cs == states[i].cs
    ensures SearchPinged(FormerNeighbours(init, states, k), states[i])
  {
    hide Inv, StepIs, StartD2, SearchPinged, Handles;
    if i == 0 {
      StartPings(init);
    } else {
      RunStepIs(init, states, events, i - 1);
      if i == k {
        RestartPings(states[i - 1], events[i - 1], states[i]);
      } else {
        NumberGrows(init, states, events, k, i - 1);
        NumberGrows(init, states, events, i - 1, i);
        NeighboursPinged(init, states, events, k, i - 1);
        StillPinged(states[i - 1], events[i - 1], states[i], FormerNeighbours(init, states, k));
      }
    }
  }

  lemma {:induction false} NumberGrows(init: Node, states: seq<Node>, events: seq<Event>, k: nat, i: nat)
    requires IsRun(init, states, events) && k <= i <= |events|
    ensures states[k].cs <= states[i].cs
  {
    hide Inv, StartD2, Handles, StageIs, UplinkIs, PongsAre, AlarmIs, Sends;
    if k < i {
      NumberGrows(init, states, events, k, i - 1);
      RunStepIs(init, states, events, i - 1);
    }
  }

  /** Event j named referrers, and they have been pinged in the attempt that is current in state s. */
  ghost predicate FollowedUp(states: seq<Node>, events: seq<Event>, j: nat, s: Node) {
    && j < |events| == |states| - 1 && FollowsUp(states[j], events[j]) && states[j].cs == s.cs
    && forall a :: a in events[j].addresses ==> Ping(a, PT_CACHED, s.cs) in s.sent
  }

  /** Waiting for the pongs of referrers, the node has pinged all that were named. */
  lemma {:induction false} ReferrersPinged(init: Node, states: seq<Node>, events: seq<Event>, i: nat) returns (j: nat)
    requires IsRun(init, states, events) && i <= |events| && states[i].stage == D3_1
    ensures j < i && FollowedUp(states, events, j, states[i])
  {
    hide Inv, StartD2, Handles, UplinkIs, PongsAre, AlarmIs, Sends;
    if i == 0 {
      StartD2Fields(init);
    }
    RunStepIs(init, states, events, i - 1);
    if FollowsUp(states[i - 1], events[i - 1]) {
      j := i - 1;
      FollowUpPings(states[j], events[j], states[i]);
    } else {
      j := ReferrersPinged(init, states, events, i - 1);
    }
  }

  lemma {:induction false} FollowUpPings(s: Node, e: Event, s': Node)
    requires StepIs(s, e, s') && FollowsUp(s, e)
    ensures s'.cs == s.cs && forall a :: a in e.addresses ==> Ping(a, PT_CACHED, s'.cs) in s'.sent
  {
    hide UplinkIs, AlarmIs;
    forall a | a in e.addresses
      ensures Ping(a, PT_CACHED, s'.cs) in s'.sent
    {
      assert Sends(s, e, s', Ping(a, PT_CACHED, s'.cs));
    }
  }
}
