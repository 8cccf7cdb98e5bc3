/**
 * Creating services on demand: any number of threads look services up and create the missing ones, each step of
 * one thread interleaved in any way with the steps of the others.
 */
module ServiceCreation {
  type Tid = nat
  type Sid = nat
  type Instance = nat

  /** What a call ends with: an instance, null (the start event failed), or an exception. */
  datatype Result = Got(u: Instance) | Null | Threw

  /** Where a thread is in getServiceOrCreate, forwardEvent or initService. */
  datatype Pc =
    | Idle
    | LookUp(sid: Sid)                  // about to search the container under the read lock
    | FindMutex(sid: Sid)               // about to find or make the mutex of the service
    | WaitMutex(sid: Sid)               // about to lock it
    | CheckAgain(sid: Sid)              // holds it from here on
    | FindConstructor(sid: Sid)
    | CheckLast(sid: Sid)
    | Construct(sid: Sid)
    | Insert(sid: Sid, u: Instance)
    | SendStart(sid: Sid, u: Instance)
    | Done(sid: Sid, result: Result)    // has released it

  datatype State = State(
    container: map<Sid, Instance>,
    mutexes: set<Sid>,                  // services for which there is a mutex
    holders: map<Sid, Tid>,             // who holds the mutex of a service
    threads: map<Tid, Pc>,
    built: map<Sid, nat>)               // how often the constructor of a service has succeeded

  datatype Held = Nothing | Mutex(sid: Sid)

  /** The mutex that a thread has locked and not released yet. */
  function Holds(pc: Pc): Held {
    match pc
    case CheckAgain(sid) => Mutex(sid)
    case FindConstructor(sid) => Mutex(sid)
    case CheckLast(sid) => Mutex(sid)
    case Construct(sid) => Mutex(sid)
    case Insert(sid, _) => Mutex(sid)
    case SendStart(sid, _) => Mutex(sid)
    case _ => Nothing
  }

  function TimesBuilt(s: State, sid: Sid): nat {
    if sid in s.built then s.built[sid] else 0
  }

  // What a step of thread t does besides moving the thread from one place to another.

  ghost predicate NothingElse(s: State, s': State) {
    s'.container == s.container && s'.mutexes == s.mutexes && s'.holders == s.holders && s'.built == s.built
  }

  ghost predicate Locks(s: State, s': State, t: Tid, sid: Sid) {
    s'.container == s.container && s'.mutexes == s.mutexes && s'.holders == s.holders[sid := t] && s'.built == s.built
  }

  ghost predicate Unlocks(s: State, s': State, sid: Sid) {
    s'.container == s.container && s'.mutexes == s.mutexes && s'.holders == s.holders - {sid} && s'.built == s.built
  }

  /** If the service is there now, the call ends with it; otherwise the thread goes on. */
  ghost predicate FindsOr(s: State, s': State, sid: Sid, pc: Pc, pc': Pc) {
    if sid in s.container then pc' == Done(sid, Got(s.container[sid])) && Unlocks(s, s', sid)
    else pc' == pc && NothingElse(s, s')
  }

  /** Looking for a constructor, constructing and starting may each succeed or fail. */
  ghost predicate Act(s: State, t: Tid, pc: Pc, pc': Pc, s': State) {
    match pc
    case Idle => pc'.LookUp? && NothingElse(s, s')
    case LookUp(sid) =>
      NothingElse(s, s') && pc' == if sid in s.container then Done(sid, Got(s.container[sid])) else FindMutex(sid)
    case FindMutex(sid) =>
      pc' == WaitMutex(sid) && s' == s.(threads := s'.threads, mutexes := s.mutexes + {sid})
    case WaitMutex(sid) => sid in s.mutexes && sid !in s.holders && pc' == CheckAgain(sid) && Locks(s, s', t, sid)
    case CheckAgain(sid) => FindsOr(s, s', sid, FindConstructor(sid), pc')
    case FindConstructor(sid) =>
      (pc' == CheckLast(sid) && NothingElse(s, s')) || (pc' == Done(sid, Threw) && Unlocks(s, s', sid))
    case CheckLast(sid) => FindsOr(s, s', sid, Construct(sid), pc')
    case Construct(sid) =>
      || (pc' == Done(sid, Threw) && Unlocks(s, s', sid))
      || (pc'.Insert? && pc'.sid == sid
        && s' == s.(threads := s'.threads, built := s.built[sid := TimesBuilt(s, sid) + 1]))
    case Insert(sid, u) =>
      && pc' == SendStart(sid, u)
      && s' == s.(threads := s'.threads, container := if sid in s.container then s.container else s.container[sid := u])
    case SendStart(sid, u) => (pc' == Done(sid, Got(u)) || pc' == Done(sid, Null)) && Unlocks(s, s', sid)
    case Done(_, _) => pc' == Idle && NothingElse(s, s')
  }

  /** Other threads stay where they are. */
  ghost predicate OnlyMoves(s: State, t: Tid, s': State) {
    t in s.threads && t in s'.threads && s'.threads == s.threads[t := s'.threads[t]]
  }

  /** One step of thread t. */
  ghost predicate Step(s: State, t: Tid, s': State) {
    OnlyMoves(s, t, s') && Act(s, t, s.threads[t], s'.threads[t], s')
  }

  ghost predicate Init(s: State) {
    && s.container == map[] && s.holders == map[] && s.built == map[] && s.mutexes == {}
    && forall t :: t in s.threads ==> s.threads[t] == Idle
  }

  // What every step keeps.

  /** Exactly the holder of a mutex is between locking and releasing it. */
  ghost predicate Exclusive(s: State) {
    && (forall t :: t in s.threads && Holds(s.threads[t]).Mutex? ==>
          Holds(s.threads[t]).sid in s.holders && s.holders[Holds(s.threads[t]).sid] == t)
    && (forall sid :: sid in s.holders ==>
       s.holders[sid] in s.threads && Holds(s.threads[s.holders[sid]]) == Mutex(sid))
  }

  /** What a thread knows about the container at each of its steps. */
  ghost predicate Knows(s: State, pc: Pc) {
    match pc
    case FindConstructor(sid) => sid !in s.container
    case CheckLast(sid) => sid !in s.container
    case Construct(sid) => sid !in s.container
    case Insert(sid, _) => sid !in s.container
    case SendStart(sid, u) => sid in s.container && s.container[sid] == u
    case Done(sid, Got(u)) => sid in s.container && s.container[sid] == u
    case Done(sid, Null) => sid in s.container
    case _ => true
  }

  /** Some thread has built the service but not inserted it yet. */
  ghost predicate Inserting(s: State, sid: Sid) {
    exists t :: t in s.threads && s.threads[t].Insert? && s.threads[t].sid == sid
  }

  ghost predicate Inv(s: State) {
    && Exclusive(s) && (forall t :: t in s.threads ==> Knows(s, s.threads[t]))
    && forall sid :: TimesBuilt(s, sid) == if sid in s.container || Inserting(s, sid) then 1 else 0
  }

  lemma {:induction false} InitHolds(s: State)
    requires Init(s)
    ensures Inv(s)
  {
  }

  /** The container only grows; what is in it stays. */
  ghost predicate Grows(s: State, s': State) {
    forall sid :: sid in s.container ==> sid in s'.container && s'.container[sid] == s.container[sid]
  }

  lemma {:induction false} StepGrows(s: State, t: Tid, s': State)
    requires Step(s, t, s')
    ensures Grows(s, s')
  {
  }

  /** What a step does to the mutexes: nothing, or the thread gets or releases one. */
  ghost predicate HolderStep(s: State, t: Tid, s': State)
    requires OnlyMoves(s, t, s')
  {
    var h, h' := Holds(s.threads[t]), Holds(s'.threads[t]);
    if h == h' then s'.holders == s.holders
    else if h'.Mutex? then h == Nothing && h'.sid !in s.holders && s'.holders == s.holders[h'.sid := t]
    else s'.holders == s.holders - {h.sid}
  }

  lemma {:induction false} StepHolder(s: State, t: Tid, s': State)
    requires Step(s, t, s')
    ensures HolderStep(s, t, s')
  {
  }

  lemma {:induction false} StepExclusive(s: State, t: Tid, s': State)
    requires Exclusive(s) && Step(s, t, s')
    ensures Exclusive(s')
  {
    hide Act, Holds;
    StepHolder(s, t, s');
    if Holds(s.threads[t]).Mutex? {
      assert s.holders[Holds(s.threads[t]).sid] == t;
    }
    forall u | u in s'.threads && Holds(s'.threads[u]).Mutex?
      ensures var sid := Holds(s'.threads[u]).sid; sid in s'.holders && s'.holders[sid] == u
    {
      if u != t {
        assert s'.threads[u] == s.threads[u];
      }
    }
  }

  /** Two threads never hold the same mutex. */
  lemma {:induction false} OneHolder(s: State, t: Tid, u: Tid)
    requires Exclusive(s) && t in s.threads && u in s.threads
    requires Holds(s.threads[t]) == Holds(s.threads[u]) != Nothing
    ensures t == u
  {
    assert s.holders[Holds(s.threads[t]).sid] == t;
    assert s.holders[Holds(s.threads[u]).sid] == u;
  }

  /** Only the insertion step adds to the container. */
  lemma {:induction false} StepInserts(s: State, t: Tid, s': State)
    requires Step(s, t, s')
    ensures if s.threads[t].Insert? then s'.container.Keys == s.container.Keys + {s.threads[t].sid}
      else s'.container == s.container
    ensures s.threads[t].Insert? ==> t in s'.threads && !s'.threads[t].Insert?
  {
  }

  /** Only a successful construction counts, and it is followed by the insertion step. */
  lemma {:induction false} StepBuilds(s: State, t: Tid, s': State, sid: Sid)
    requires Step(s, t, s')
    ensures var b := s.threads[t].Construct? && t in s'.threads && s'.threads[t].Insert?;
      && TimesBuilt(s', sid) == TimesBuilt(s, sid) + (if b && s.threads[t].sid == sid then 1 else 0)
      && (b ==> s'.threads[t].sid == s.threads[t].sid)
      && (t in s'.threads && s'.threads[t].Insert? ==> s.threads[t].Construct?)
  {
  }

  lemma {:induction false} MoverKnows(s: State, t: Tid, s': State)
    requires Step(s, t, s') && Knows(s, s.threads[t]) && t in s'.threads
    ensures Knows(s', s'.threads[t])
  {
    hide TimesBuilt;
  }

  lemma {:induction false} OthersKnow(s: State, t: Tid, s': State, u: Tid)
    requires Inv(s) && Step(s, t, s') && u in s.threads && u != t
    ensures Knows(s', s.threads[u])
  {
    hide Inserting, Act, Exclusive;
    StepGrows(s, t, s');
    StepInserts(s, t, s');
    assert Knows(s, s.threads[u]);
    if s.threads[t].Insert? && Holds(s.threads[u]) == Mutex(s.threads[t].sid) {
      OneHolder(s, t, u);
    }
  }

  lemma {:induction false} StepKnows(s: State, t: Tid, s': State, u: Tid)
    requires Inv(s) && Step(s, t, s') && u in s'.threads
    ensures Knows(s', s'.threads[u])
  {
    hide Exclusive, Inserting, Act, Knows;
    assert Knows(s, s.threads[t]);
    if u != t {
      OthersKnow(s, t, s', u);
    } else {
      MoverKnows(s, t, s');
    }
  }

  /** A service that a thread is about to construct is not being inserted by another. */
  lemma {:induction false} NobodyInserting(s: State, t: Tid)
    requires Inv(s) && t in s.threads && s.threads[t].Construct?
    ensures TimesBuilt(s, s.threads[t].sid) == 0
  {
    var sid := s.threads[t].sid;
    assert Knows(s, s.threads[t]);
    forall u | u in s.threads && s.threads[u].Insert?
      ensures s.threads[u].sid != sid
    {
      if s.threads[u].sid == sid {
        OneHolder(s, t, u);
      }
    }
  }

  /** The service is being inserted by this thread or by another. */
  lemma {:induction false} InsertingAfter(s: State, t: Tid, s': State, sid: Sid)
    requires OnlyMoves(s, t, s')
    ensures Inserting(s', sid) <==>
      (s'.threads[t].Insert? && s'.threads[t].sid == sid)
      || exists u :: u in s.threads && u != t && s.threads[u].Insert? && s.threads[u].sid == sid
  {
    if u :| u in s.threads && u != t && s.threads[u].Insert? && s.threads[u].sid == sid {
      assert s'.threads[u] == s.threads[u];
    }
  }

  lemma {:induction false} StepCounts(s: State, t: Tid, s': State, sid: Sid)
    requires Inv(s) && Step(s, t, s')
    ensures TimesBuilt(s', sid) == if sid in s'.container || Inserting(s', sid) then 1 else 0
  {
    hide Act, Exclusive, Knows, TimesBuilt;
    StepInserts(s, t, s');
    StepBuilds(s, t, s', sid);
    InsertingAfter(s, t, s', sid);
    if s.threads[t].Construct? {
      NobodyInserting(s, t);
    }
  }

  /** Every step keeps the invariant, and services stay what they are. */
  lemma {:induction false} StepKeeps(s: State, t: Tid, s': State)
    requires Inv(s) && Step(s, t, s')
    ensures Inv(s') && Grows(s, s')
  {
    hide Step, Knows, Exclusive, Inserting, TimesBuilt;
    StepGrows(s, t, s');
    StepExclusive(s, t, s');
    forall u | u in s'.threads
      ensures Knows(s', s'.threads[u])
    {
      StepKnows(s, t, s', u);
    }
    forall sid
      ensures TimesBuilt(s', sid) == if sid in s'.container || Inserting(s', sid) then 1 else 0
    {
      StepCounts(s, t, s', sid);
    }
  }

  // Whole runs.

  ghost predicate IsRun(run: seq<State>, who: seq<Tid>) {
    && |run| == |who| + 1 && Init(run[0])
    && forall i :: 0 <= i < |who| ==> Step(run[i], who[i], run[i + 1])
  }

  lemma {:induction false} RunKeeps(run: seq<State>, who: seq<Tid>, i: nat)
    requires IsRun(run, who) && i < |run|
    ensures Inv(run[i])
  {
    hide Step, Inv, Init;
    if i == 0 {
      InitHolds(run[0]);
    } else {
      RunKeeps(run, who, i - 1);
      StepKeeps(run[i - 1], who[i - 1], run[i]);
    }
  }

  lemma {:induction false} RunGrows(run: seq<State>, who: seq<Tid>, i: nat, j: nat)
    requires IsRun(run, who) && i <= j < |run|
    ensures Grows(run[i], run[j])
  {
    hide Step, Init;
    if i < j {
      RunGrows(run, who, i, j - 1);
      StepGrows(run[j - 1], who[j - 1], run[j]);
    }
  }

  /**
   * However the threads interleave: no service is built twice, and a service is in the container only if it was
   * built.
   */
  lemma {:induction false} BuiltAtMostOnce(run: seq<State>, who: seq<Tid>, i: nat, sid: Sid)
    requires IsRun(run, who) && i < |run|
    ensures TimesBuilt(run[i], sid) <= 1 && (sid in run[i].container ==> TimesBuilt(run[i], sid) == 1)
  {
    hide Step, Init, TimesBuilt;
    RunKeeps(run, who, i);
  }

  /** All calls for a service that succeed, at whatever time, give the same instance. */
  lemma {:induction false} SameInstance(run: seq<State>, who: seq<Tid>, i: nat, j: nat, t: Tid, u: Tid, sid: Sid,
          x: Instance, y: Instance)
    requires IsRun(run, who) && i <= j < |run| && t in run[i].threads && u in run[j].threads
    requires run[i].threads[t] == Done(sid, Got(x)) && run[j].threads[u] == Done(sid, Got(y))
    ensures x == y
  {
    hide Step, Init;
    RunKeeps(run, who, i);
    RunKeeps(run, who, j);
    RunGrows(run, who, i, j);
    assert Knows(run[i], run[i].threads[t]) && Knows(run[j], run[j].threads[u]);
  }

  /** A call that fails on the start event leaves the service behind: later calls find it. */
  lemma {:induction false} FoundAfterFailedStart(run: seq<State>, who: seq<Tid>, i: nat, j: nat, t: Tid, sid: Sid)
    requires IsRun(run, who) && i <= j < |run| && t in run[i].threads && run[i].threads[t] == Done(sid, Null)
    ensures sid in run[j].container && TimesBuilt(run[j], sid) == 1
  {
    hide Step, Init;
    RunKeeps(run, who, i);
    RunGrows(run, who, i, j);
    assert Knows(run[i], run[i].threads[t]);
    BuiltAtMostOnce(run, who, j, sid);
  }

  // One call, from its first look-up to its end.

  /** Thread t calls for service sid in state a of the run, and the call ends in state b. */
  ghost predicate IsCall(run: seq<State>, t: Tid, sid: Sid, a: nat, b: nat) {
    && a <= b < |run| && (forall i :: 0 <= i < |run| ==> t in run[i].threads)
    && run[a].threads[t] == LookUp(sid) && run[b].threads[t].Done?
    && forall i :: a <= i < b ==> !run[i].threads[t].Done?
  }

  /** About to search the container, for the first, the second or the third time. */
  predicate Searches(pc: Pc, sid: Sid) {
    pc == LookUp(sid) || pc == CheckAgain(sid) || pc == CheckLast(sid)
  }

  /** A call that finds the service at any of its three look-ups ends with the instance found. */
  lemma {:induction false} FoundEndsCall(run: seq<State>, who: seq<Tid>, i: nat, sid: Sid)
    requires IsRun(run, who) && i < |who|
    requires who[i] in run[i].threads && Searches(run[i].threads[who[i]], sid) && sid in run[i].container
    ensures who[i] in run[i + 1].threads
    ensures run[i + 1].threads[who[i]] == Done(sid, Got(run[i].container[sid]))
  {
    hide Init;
    assert Step(run[i], who[i], run[i + 1]);
  }

  /** Between states a and j of the run the thread itself has built this instance. */
  ghost predicate BuiltIn(run: seq<State>, who: seq<Tid>, t: Tid, sid: Sid, u: Instance, a: nat, j: nat)
    requires |run| == |who| + 1 && j < |run| && forall i :: 0 <= i < |run| ==> t in run[i].threads
  {
    exists h :: a <= h < j && who[h] == t && run[h].threads[t] == Construct(sid)
                && run[h + 1].threads[t] == Insert(sid, u)
  }

  /** ... and has put it into the container, where there was none. */
  ghost predicate InsertedIn(run: seq<State>, who: seq<Tid>, t: Tid, sid: Sid, u: Instance, a: nat, j: nat)
    requires |run| == |who| + 1 && j < |run| && forall i :: 0 <= i < |run| ==> t in run[i].threads
  {
    exists h ::
      && a <= h < j && who[h] == t && BuiltIn(run, who, t, sid, u, a, h)
      && sid !in run[h].container && run[h + 1].container == run[h].container[sid := u]
  }

  /** What a call has done when it has come to a step. */
  ghost predicate CallDid(run: seq<State>, who: seq<Tid>, t: Tid, sid: Sid, a: nat, j: nat)
    requires |run| == |who| + 1 && a <= j < |run| && forall i :: 0 <= i < |run| ==> t in run[i].threads
  {
    match run[j].threads[t]
    case Idle => false
    case Insert(s, u) => s == sid && sid !in run[a].container && BuiltIn(run, who, t, sid, u, a, j)
    case SendStart(s, u) => s == sid && sid !in run[a].container && InsertedIn(run, who, t, sid, u, a, j)
    case Done(s, r) => s == sid && CallResult(run, who, t, sid, r, a, j)
    case LookUp(s) => s == sid
    case pc => pc.sid == sid && sid !in run[a].container
  }

  /** What the result of a call tells. */
  ghost predicate CallResult(run: seq<State>, who: seq<Tid>, t: Tid, sid: Sid, r: Result, a: nat, b: nat)
    requires |run| == |who| + 1 && a <= b < |run| && forall i :: 0 <= i < |run| ==> t in run[i].threads
  {
    && (sid in run[a].container ==> r == Got(run[a].container[sid]))
    && match r
       case Got(u) => sid in run[b].container && run[b].container[sid] == u
       case Null => exists u :: InsertedIn(run, who, t, sid, u, a, b)
       case Threw => sid !in run[b].container
  }

  lemma {:induction false} StillBuilt(run: seq<State>, who: seq<Tid>, t: Tid, sid: Sid, u: Instance, a: nat, j: nat,
          k: nat)
    requires |run| == |who| + 1 && j <= k < |run| && forall i :: 0 <= i < |run| ==> t in run[i].threads
    ensures BuiltIn(run, who, t, sid, u, a, j) ==> BuiltIn(run, who, t, sid, u, a, k)
    ensures InsertedIn(run, who, t, sid, u, a, j) ==> InsertedIn(run, who, t, sid, u, a, k)
  {
  }

  /** The step of another thread leaves a call where it is. */
  lemma {:induction false} OtherStepInCall(run: seq<State>, who: seq<Tid>, t: Tid, sid: Sid, a: nat, j: nat)
    requires IsRun(run, who) && a <= j < |who| && who[j] != t
    requires forall i :: 0 <= i < |run| ==> t in run[i].threads
    requires CallDid(run, who, t, sid, a, j) && !run[j].threads[t].Done?
    ensures CallDid(run, who, t, sid, a, j + 1)
  {
    hide Init, Act, BuiltIn, InsertedIn;
    assert Step(run[j], who[j], run[j + 1]);
    assert run[j + 1].threads[t] == run[j].threads[t];
    if run[j].threads[t].Insert? || run[j].threads[t].SendStart? {
      StillBuilt(run, who, t, sid, run[j].threads[t].u, a, j, j + 1);
    }
  }

  /** A step of the call itself. */
  lemma {:induction false} OwnStepInCall(run: seq<State>, who: seq<Tid>, t: Tid, sid: Sid, a: nat, j: nat)
    requires IsRun(run, who) && a <= j < |who| && who[j] == t
    requires forall i :: 0 <= i < |run| ==> t in run[i].threads
    requires CallDid(run, who, t, sid, a, j) && !run[j].threads[t].Done?
    ensures CallDid(run, who, t, sid, a, j + 1)
  {
    hide Init, Exclusive, Inserting, BuiltIn, InsertedIn;
    RunKeeps(run, who, j);
    RunGrows(run, who, a, j);
    assert Step(run[j], t, run[j + 1]) && Knows(run[j], run[j].threads[t]);
    match run[j].threads[t]
    case Construct(s) =>
      if run[j + 1].threads[t].Insert? {
        OwnBuild(run, who, t, sid, run[j + 1].threads[t].u, a, j);
      }
    case Insert(s, u) => OwnInsert(run, who, t, sid, u, a, j);
    case SendStart(s, u) => StillBuilt(run, who, t, sid, u, a, j, j + 1);
    case _ =>
  }

  lemma {:induction false} OwnBuild(run: seq<State>, who: seq<Tid>, t: Tid, sid: Sid, u: Instance, a: nat, j: nat)
    requires |run| == |who| + 1 && a <= j < |who| && forall i :: 0 <= i < |run| ==> t in run[i].threads
    requires who[j] == t && run[j].threads[t] == Construct(sid) && run[j + 1].threads[t] == Insert(sid, u)
    ensures BuiltIn(run, who, t, sid, u, a, j + 1)
  {
  }

  lemma {:induction false} OwnInsert(run: seq<State>, who: seq<Tid>, t: Tid, sid: Sid, u: Instance, a: nat, j: nat)
    requires |run| == |who| + 1 && a <= j < |who| && forall i :: 0 <= i < |run| ==> t in run[i].threads
    requires who[j] == t && BuiltIn(run, who, t, sid, u, a, j) && sid !in run[j].container
    requires run[j + 1].container == run[j].container[sid := u]
    ensures InsertedIn(run, who, t, sid, u, a, j + 1)
  {
    hide BuiltIn;
  }

  lemma {:induction false} CallSoFar(run: seq<State>, who: seq<Tid>, t: Tid, sid: Sid, a: nat, b: nat, j: nat)
    requires IsRun(run, who) && IsCall(run, t, sid, a, b) && a <= j <= b
    ensures CallDid(run, who, t, sid, a, j)
  {
    hide Init, Step, CallResult, BuiltIn, InsertedIn;
    if a < j {
      CallSoFar(run, who, t, sid, a, b, j - 1);
      if who[j - 1] == t {
        OwnStepInCall(run, who, t, sid, a, j - 1);
      } else {
        OtherStepInCall(run, who, t, sid, a, j - 1);
      }
    }
  }

  /**
   * However the threads interleave, the result of a call tells what happened. An instance: it is the one in the
   * container, and it is the one that was there if there was one when the call began. Null: this same thread
   * built the service and put it into the container during the call. An exception: there is no such service.
   */
  lemma {:induction false} CallEnds(run: seq<State>, who: seq<Tid>, t: Tid, sid: Sid, a: nat, b: nat)
    requires IsRun(run, who) && IsCall(run, t, sid, a, b)
    ensures run[b].threads[t].sid == sid && CallResult(run, who, t, sid, run[b].threads[t].result, a, b)
  {
    hide Init, Step, CallResult, BuiltIn, InsertedIn;
    CallSoFar(run, who, t, sid, a, b, b);
  }

  /** A call that begins when the service is there ends with it. */
  lemma {:induction false} CallFindsService(run: seq<State>, who: seq<Tid>, t: Tid, sid: Sid, a: nat, b: nat)
    requires IsRun(run, who) && IsCall(run, t, sid, a, b) && sid in run[a].container
    ensures run[b].threads[t] == Done(sid, Got(run[a].container[sid]))
  {
    hide Init, Step, BuiltIn, InsertedIn;
    CallEnds(run, who, t, sid, a, b);
  }

  /** The states of a call that builds the service and is not disturbed. */
  function InLoneCall(s: State, t: Tid, sid: Sid, u: Instance, r: Result, i: nat): State {
    var made := s.(mutexes := s.mutexes + {sid});
    var locked := made.(holders := s.holders[sid := t]);
    var built := locked.(built := s.built[sid := TimesBuilt(s, sid) + 1]);
    var inserted := built.(container := s.container[sid := u]);
    match i
    case 0 => s
    case 1 => Moved(s, t, LookUp(sid))
    case 2 => Moved(s, t, FindMutex(sid))
    case 3 => Moved(made, t, WaitMutex(sid))
    case 4 => Moved(locked, t, CheckAgain(sid))
    case 5 => Moved(locked, t, FindConstructor(sid))
    case 6 => Moved(locked, t, CheckLast(sid))
    case 7 => Moved(locked, t, Construct(sid))
    case 8 => Moved(built, t, Insert(sid, u))
    case 9 => Moved(inserted, t, SendStart(sid, u))
    case _ => Released(inserted, t, Done(sid, r))
  }

  lemma {:induction false} MoveOn(s: State, t: Tid, s1: State, pc: Pc, s2: State, pc': Pc)
    requires t in s.threads && s1.threads == s.threads[t := pc] && s2.threads == s.threads[t := pc']
    ensures OnlyMoves(s1, t, s2) && s1.threads[t] == pc && s2.threads[t] == pc'
  {
  }

  lemma {:induction false} LoneCallLocks(s: State, t: Tid, sid: Sid, u: Instance, r: Result, i: nat)
    requires t in s.threads && s.threads[t] == Idle && sid !in s.container && sid !in s.holders
    requires (r == Got(u) || r == Null) && i < 4
    ensures Step(InLoneCall(s, t, sid, u, r, i), t, InLoneCall(s, t, sid, u, r, i + 1))
  {
    hide OnlyMoves, TimesBuilt;
    var s1, s2 := InLoneCall(s, t, sid, u, r, i), InLoneCall(s, t, sid, u, r, i + 1);
    assert s.threads == s.threads[t := Idle];
    MoveOn(s, t, s1, s1.threads[t], s2, s2.threads[t]);
  }

  lemma {:induction false} LoneCallSearches(s: State, t: Tid, sid: Sid, u: Instance, r: Result, i: nat)
    requires t in s.threads && s.threads[t] == Idle && sid !in s.container && sid !in s.holders
    requires (r == Got(u) || r == Null) && 4 <= i < 7
    ensures Step(InLoneCall(s, t, sid, u, r, i), t, InLoneCall(s, t, sid, u, r, i + 1))
  {
    hide OnlyMoves, TimesBuilt;
    var s1, s2 := InLoneCall(s, t, sid, u, r, i), InLoneCall(s, t, sid, u, r, i + 1);
    assert s.threads == s.threads[t := Idle];
    MoveOn(s, t, s1, s1.threads[t], s2, s2.threads[t]);
  }

  lemma {:induction false} LoneCallBuilds(s: State, t: Tid, sid: Sid, u: Instance, r: Result, i: nat)
    requires t in s.threads && s.threads[t] == Idle && sid !in s.container && sid !in s.holders
    requires (r == Got(u) || r == Null) && 7 <= i < 9
    ensures Step(InLoneCall(s, t, sid, u, r, i), t, InLoneCall(s, t, sid, u, r, i + 1))
  {
    hide OnlyMoves;
    var s1, s2 := InLoneCall(s, t, sid, u, r, i), InLoneCall(s, t, sid, u, r, i + 1);
    assert s.threads == s.threads[t := Idle];
    MoveOn(s, t, s1, s1.threads[t], s2, s2.threads[t]);
  }

  lemma {:induction false} LoneCallEnds(s: State, t: Tid, sid: Sid, u: Instance, r: Result, i: nat)
    requires t in s.threads && s.threads[t] == Idle && sid !in s.container && sid !in s.holders
    requires (r == Got(u) || r == Null) && i == 9
    ensures Step(InLoneCall(s, t, sid, u, r, i), t, InLoneCall(s, t, sid, u, r, i + 1))
  {
    hide OnlyMoves, TimesBuilt;
    var s1, s2 := InLoneCall(s, t, sid, u, r, i), InLoneCall(s, t, sid, u, r, i + 1);
    assert s.threads == s.threads[t := Idle];
    MoveOn(s, t, s1, s1.threads[t], s2, s2.threads[t]);
  }

  lemma {:induction false} LoneCallStep(s: State, t: Tid, sid: Sid, u: Instance, r: Result, i: nat)
    requires t in s.threads && s.threads[t] == Idle && sid !in s.container && sid !in s.holders
    requires (r == Got(u) || r == Null) && i < 10
    ensures Step(InLoneCall(s, t, sid, u, r, i), t, InLoneCall(s, t, sid, u, r, i + 1))
  {
    hide Step, InLoneCall;
    if i < 4 {
      LoneCallLocks(s, t, sid, u, r, i);
    } else if i < 7 {
      LoneCallSearches(s, t, sid, u, r, i);
    } else if i < 9 {
      LoneCallBuilds(s, t, sid, u, r, i);
    } else {
      LoneCallEnds(s, t, sid, u, r, i);
    }
  }

  /** A call for a service that is not there can go all the way: it builds it, and ends with it or with null. */
  lemma {:induction false} CallCanBuild(s: State, t: Tid, sid: Sid, u: Instance, r: Result) returns (path: seq<State>)
    requires t in s.threads && s.threads[t] == Idle && sid !in s.container && sid !in s.holders
    requires r == Got(u) || r == Null
    ensures |path| == 11 && path[0] == s && forall i :: 0 <= i < 10 ==> Step(path[i], t, path[i + 1])
    ensures path[10] == s.(threads := s.threads[t := Done(sid, r)], container := s.container[sid := u],
                           mutexes := s.mutexes + {sid}, built := s.built[sid := TimesBuilt(s, sid) + 1])
  {
    hide Step, TimesBuilt;
    path := seq(11, i requires i >= 0 => InLoneCall(s, t, sid, u, r, i));
    forall i | 0 <= i < 10
      ensures Step(path[i], t, path[i + 1])
    {
      LoneCallStep(s, t, sid, u, r, i);
    }
  }

  // No deadlock.

  ghost predicate CanMove(s: State, t: Tid) {
    exists s' :: Step(s, t, s')
  }

  /** A thread that waits for a mutex finds one to wait for. */
  ghost predicate WaitersHaveMutex(s: State) {
    forall t :: t in s.threads && s.threads[t].WaitMutex? ==> s.threads[t].sid in s.mutexes
  }

  lemma {:induction false} WaitersKeepMutex(run: seq<State>, who: seq<Tid>, i: nat)
    requires IsRun(run, who) && i < |run|
    ensures WaitersHaveMutex(run[i])
  {
    hide Init, Act;
    if i == 0 {
      NobodyWaits(run[0]);
    } else {
      WaitersKeepMutex(run, who, i - 1);
      StepMutexes(run[i - 1], who[i - 1], run[i]);
    }
  }

  lemma {:induction false} NobodyWaits(s: State)
    requires Init(s)
    ensures WaitersHaveMutex(s)
  {
  }

  lemma {:induction false} StepMutexes(s: State, t: Tid, s': State)
    requires Step(s, t, s')
    ensures s.mutexes <= s'.mutexes && (s'.threads[t].WaitMutex? ==> s'.threads[t].sid in s'.mutexes)
  {
  }

  /** A thread that holds a mutex can go on. */
  lemma {:induction false} HolderCanMove(s: State, t: Tid)
    requires t in s.threads && Holds(s.threads[t]).Mutex?
    ensures CanMove(s, t)
  {
    var s' := match s.threads[t]
      case CheckAgain(sid) =>
        if sid in s.container then Released(s, t, Done(sid, Got(s.container[sid])))
        else Moved(s, t, FindConstructor(sid))
      case FindConstructor(sid) => Moved(s, t, CheckLast(sid))
      case CheckLast(sid) =>
        if sid in s.container then Released(s, t, Done(sid, Got(s.container[sid]))) else Moved(s, t, Construct(sid))
      case Construct(sid) => Released(s, t, Done(sid, Threw))
      case Insert(sid, u) =>
        Moved(s, t, SendStart(sid, u)).(container := if sid in s.container then s.container else s.container[sid := u])
      case SendStart(sid, u) => Released(s, t, Done(sid, Got(u)))
      case _ => s;
    assert Step(s, t, s');
  }

  function Moved(s: State, t: Tid, pc: Pc): State {
    s.(threads := s.threads[t := pc])
  }

  function Released(s: State, t: Tid, pc: Pc): State
    requires !pc.Idle?
  {
    Moved(s, t, pc).(holders := s.holders - {pc.sid})
  }

  /** In every reachable state every thread can go on, or waits for a mutex whose holder can. */
  lemma {:induction false} NoDeadlock(run: seq<State>, who: seq<Tid>, i: nat, t: Tid)
    requires IsRun(run, who) && i < |run| && t in run[i].threads
    ensures var s := run[i];
      CanMove(s, t)
      || (s.threads[t].WaitMutex? && s.threads[t].sid in s.holders && s.holders[s.threads[t].sid] != t
          && CanMove(s, s.holders[s.threads[t].sid]))
  {
    hide Init, Inserting, Knows;
    var s := run[i];
    RunKeeps(run, who, i);
    WaitersKeepMutex(run, who, i);
    match s.threads[t]
    case Idle => assert Step(s, t, Moved(s, t, LookUp(0)));
    case LookUp(sid) =>
      var pc := if sid in s.container then Done(sid, Got(s.container[sid])) else FindMutex(sid);
      assert Step(s, t, Moved(s, t, pc));
    case FindMutex(sid) => assert Step(s, t, Moved(s, t, WaitMutex(sid)).(mutexes := s.mutexes + {sid}));
    case WaitMutex(sid) =>
      if sid in s.holders {
        HolderCanMove(s, s.holders[sid]);
      } else {
        assert Step(s, t, Moved(s, t, CheckAgain(sid)).(holders := s.holders[sid := t]));
      }
    case Done(_, _) => assert Step(s, t, Moved(s, t, Idle));
    case _ => HolderCanMove(s, t);
  }
}
