/** The pool of Lua states and the queue of waiting requests (src/lws_module.c, src/lws_state.c). */
module Pool {
  import opened LuaStates
  import opened Sequences

  datatype Config = Config(statesMax: nat, requestsMax: nat, stateRequestsMax: nat, stateTimeMax: nat,
                           stateTimeout: nat, chunks: Chunks)

  /**
    * What can go wrong when a request is to be run: memory, initialization of a new state, the thread task; `used` is
    * the memory of the state if it is released at once.
    */
  datatype Luck = Luck(memory: bool, init: bool, task: bool, used: nat) {
    predicate Good() {
      memory && init && task
    }
  }

  datatype Event =
    | Arrives(r: nat, body: bool, luck: Luck)
    | QueueTimer(lucks: nat -> Luck)
    | ThreadRuns(r: nat, main: FileName, loads: Kind -> bool, outcome: Kind -> Outcome, setClose: bool)
    | ThreadEnds(r: nat, used: nat)
    | IdleTimer(i: nat)
    | BusyTimer(r: nat)
    | Clock(now: nat)

  const INTERNAL_SERVER_ERROR := 500
  const SERVICE_UNAVAILABLE := 503

  /** No state initialization fails in this event. */
  ghost predicate Initializes(e: Event) {
    match e
    case Arrives(_, _, luck) => luck.init
    case QueueTimer(lucks) => forall i :: lucks(i).init
    case _ => true
  }

  /** No thread task fails to be posted in this event. */
  ghost predicate Posts(e: Event) {
    match e
    case Arrives(_, _, luck) => luck.task
    case QueueTimer(lucks) => forall i :: lucks(i).task
    case _ => true
  }

  lemma AppendDistinct<T>(s: seq<T>, x: T)
    requires Distinct(s) && x !in s
    ensures Distinct(s + [x]) && Without(s + [x], |s|) == s
  {
  }

  ghost function Sum(s: seq<nat>): nat {
    if s == [] then 0 else s[0] + Sum(s[1..])
  }

  lemma {:induction false} SumUpdate(s: seq<nat>, k: nat, v: nat)
    requires k < |s|
    ensures Sum(s[k := v]) == Sum(s) - s[k] + v
  {
    if k > 0 {
      assert s[k := v][1..] == s[1..][k - 1 := v];
      SumUpdate(s[1..], k - 1, v);
    }
  }

  lemma {:induction false} SumWithout(s: seq<nat>, k: nat)
    requires k < |s|
    ensures Sum(Without(s, k)) == Sum(s) - s[k]
  {
    if k == 0 {
      assert Without(s, 0) == s[1..];
    } else {
      assert Without(s, k)[1..] == Without(s[1..], k - 1);
      SumWithout(s[1..], k - 1);
    }
  }

  lemma {:induction false} SumAppend(s: seq<nat>, v: nat)
    ensures Sum(s + [v]) == Sum(s) + v
  {
    if s != [] {
      assert (s + [v])[1..] == s[1..] + [v];
      SumAppend(s[1..], v);
    }
  }

  /** Every request that arrived waits, runs, failed, completed or is just being handled, and only one of these. */
  ghost function Ledger(arrived: set<nat>, waiting: seq<nat>, running: set<nat>, failed: set<nat>, completed: set<nat>,
                         handled: set<nat>): (b: bool)
    ensures b ==> running <= arrived && handled !! running && forall r :: r in waiting ==> r !in handled
  {
    && Distinct(waiting)
    && arrived == Elements(waiting) + running + failed + completed + handled
    && Elements(waiting) !! running !! failed !! completed !! handled
  }

  /** What a handler may do with the request it handles. */
  lemma LedgerSteps(arrived: set<nat>, waiting: seq<nat>, running: set<nat>, failed: set<nat>, completed: set<nat>,
                    r: nat)
    requires Ledger(arrived, waiting, running, failed, completed, {r})
    ensures Ledger(arrived, waiting, running + {r}, failed, completed, {})
    ensures Ledger(arrived, waiting, running, failed + {r}, completed, {})
    ensures Ledger(arrived, waiting, running, failed, completed + {r}, {})
    ensures Ledger(arrived, waiting + [r], running, failed, completed, {})
  {
    assert Elements(waiting + [r]) == Elements(waiting) + {r};
  }

  lemma LedgerArrive(arrived: set<nat>, waiting: seq<nat>, running: set<nat>, failed: set<nat>, completed: set<nat>,
                     r: nat)
    requires Ledger(arrived, waiting, running, failed, completed, {}) && r !in arrived
    ensures Ledger(arrived + {r}, waiting, running, failed, completed, {r})
  {
  }

  lemma LedgerDequeue(arrived: set<nat>, waiting: seq<nat>, running: set<nat>, failed: set<nat>, completed: set<nat>)
    requires Ledger(arrived, waiting, running, failed, completed, {}) && waiting != []
    ensures Ledger(arrived, waiting[1..], running, failed, completed, {waiting[0]})
  {
    assert Elements(waiting) == Elements(waiting[1..]) + {waiting[0]};
  }

  lemma LedgerStop(arrived: set<nat>, waiting: seq<nat>, running: set<nat>, failed: set<nat>, completed: set<nat>,
                   r: nat)
    requires Ledger(arrived, waiting, running, failed, completed, {}) && r in running
    ensures Ledger(arrived, waiting, running - {r}, failed, completed, {r})
  {
  }

  /** Every live state is idle or serves exactly one request. */
  ghost function Partition<S>(live: seq<S>, idle: seq<S>, running: map<nat, S>): (b: bool)
    ensures b ==> Distinct(live)
  {
    && Distinct(live) && Distinct(idle)
    && (forall s :: s in idle ==> s in live)
    && (forall r :: r in running ==> running[r] in live && running[r] !in idle)
    && (forall r, r' :: r in running && r' in running && r != r' ==> running[r] != running[r'])
    && |live| == |idle| + |running|
  }

  lemma TakeHead<S>(live: seq<S>, idle: seq<S>, running: map<nat, S>, r: nat)
    requires Partition(live, idle, running) && idle != [] && r !in running
    ensures Partition(live, idle[1..], running[r := idle[0]])
    ensures idle[0] in live && idle[0] !in idle[1..] && idle[0] !in running.Values
  {
    assert idle == [idle[0]] + idle[1..];
  }

  lemma TakeNew<S>(live: seq<S>, idle: seq<S>, running: map<nat, S>, r: nat, s: S)
    requires Partition(live, idle, running) && s !in live && r !in running
    ensures Partition(live + [s], idle, running[r := s])
    ensures s !in idle && s !in running.Values
  {
  }

  /** The state of a finished request becomes the first idle one. */
  lemma GiveBack<S>(live: seq<S>, idle: seq<S>, running: map<nat, S>, r: nat)
    requires Partition(live, idle, running) && r in running
    ensures Partition(live, [running[r]] + idle, running - {r})
    ensures running[r] in live
  {
  }

  lemma BusyIndex<S>(live: seq<S>, idle: seq<S>, running: map<nat, S>, r: nat) returns (k: nat)
    requires Partition(live, idle, running) && r in running
    ensures k < |live| && live[k] == running[r] && running[r] !in idle && running[r] !in (running - {r}).Values
  {
    k :| 0 <= k < |live| && live[k] == running[r];
  }

  lemma IdleIndex<S>(live: seq<S>, idle: seq<S>, running: map<nat, S>, i: nat) returns (k: nat)
    requires Partition(live, idle, running) && i < |idle|
    ensures k < |live| && live[k] == idle[i]
  {
    assert idle[i] in live;
    k :| 0 <= k < |live| && live[k] == idle[i];
  }

  /** A state is closed when its request has finished ... */
  lemma CloseBusy<S>(live: seq<S>, idle: seq<S>, running: map<nat, S>, r: nat, k: nat)
    requires Partition(live, idle, running) && r in running && k < |live| && live[k] == running[r]
    ensures Partition(Without(live, k), idle, running - {r})
  {
    WithoutElements(live, k);
  }

  /** ... or, by its timer, while it is idle. */
  lemma CloseIdle<S>(live: seq<S>, idle: seq<S>, running: map<nat, S>, i: nat, k: nat)
    requires Partition(live, idle, running) && i < |idle| && k < |live| && live[k] == idle[i]
    ensures Partition(Without(live, k), Without(idle, i), running) && idle[i] !in Without(live, k)
    ensures idle[i] !in Without(idle, i) && idle[i] !in running.Values
  {
    WithoutElements(live, k);
    WithoutElements(idle, i);
  }

  class Pool {
    const config: Config
    var statesN: nat
    var idle: seq<LuaState>
    var requestsN: nat
    var requests: seq<nat>
    var timerSet: bool
    var running: map<nat, LuaState>
    var monitorMemory: nat
    var now: nat

    ghost var live: seq<LuaState>
    ghost var accounts: seq<nat>    // what the monitor holds for each live state
    ghost var closed: set<LuaState>
    ghost var initFailures: nat
    ghost var postFailures: nat     // thread tasks that could not be posted
    var threadDone: set<nat>
    ghost var queued: seq<nat>      // every request ever queued, in order
    ghost var dequeued: seq<nat>    // every request ever taken from the queue, in order
    var arrived: set<nat>
    ghost var failed: map<nat, int>  // answered with an error status before running, and with which
    ghost var completed: set<nat>   // handed over to the response stage

    ghost function Live(): set<LuaState>
      reads this`live
    {
      set s | s in live
    }

    /** The state that the next request is given, if one is idle. */
    ghost function Head(): set<LuaState>
      reads this`idle
    {
      if idle == [] then {} else {idle[0]}
    }

    lemma AllLive()
      requires StateInv()
      ensures (set s | s in idle) <= Live() && running.Values <= Live()
    {
      hide States, Counters, Distinct;
    }

    predicate Capacity()
      reads this`idle, this`statesN
    {
      idle != [] || config.statesMax == 0 || statesN < config.statesMax
    }

    ghost predicate IdleState(s: LuaState)
      reads s, this`now
    {
      && !s.inUse && !s.close && !s.timedout && s.Ready(config.chunks) && s.given == s.requestCount
      && (config.stateRequestsMax > 0 ==> s.requestCount < config.stateRequestsMax)
      && s.TimerMatches() && s.timeMax == Deadline(s.created, config.stateTimeMax)
      && s.timeout == Deadline(s.released, config.stateTimeout) && s.created <= now && s.released <= now
    }

    ghost predicate BusyState(s: LuaState)
      reads s, this`now
    {
      && s.inUse && (s.close || s.Ready(config.chunks))
      && s.timeMax == Deadline(s.created, config.stateTimeMax) && s.timeout == INFINITE && s.created <= now
      && (if s.timedout then !s.timerSet else s.TimerMatches())
    }

    /** The time at which a limit counted from `start` has passed; a limit of zero is none. */
    ghost function Deadline(start: nat, limit: nat): (t: nat)
      ensures t < WORD
    {
      if limit > 0 then Wrap(start + limit) else INFINITE
    }

    /** The requests and their queue; `handled` is what a handler is just at work on. */
    ghost predicate Requests(handled: set<nat>)
      reads this`queued, this`dequeued, this`requests, this`requestsN, this`running, this`threadDone
      reads this`arrived, this`failed, this`completed
    {
      && queued == dequeued + requests && threadDone <= running.Keys
      && Ledger(arrived, requests, running.Keys, failed.Keys, completed, handled)
      && requestsN == Wrap(|requests|) && config.requestsMax < WORD
      && (config.requestsMax > 0 ==> |requests| <= config.requestsMax)
    }

    ghost predicate Accounted()
      reads this`live, this`accounts, live`memoryMonitor
    {
      |accounts| == |live| && forall i :: 0 <= i < |live| ==> accounts[i] == live[i].memoryMonitor
    }

    ghost predicate Counters()
      reads this`statesN, this`live, this`accounts, this`initFailures, this`monitorMemory, live`memoryMonitor
    {
      && statesN == Wrap(|live| - initFailures)
      && (config.statesMax > 0 ==> |live| <= config.statesMax + initFailures)
      && monitorMemory == Wrap(Sum(accounts)) && Accounted()
    }

    /** A closed state has no timer armed and is never live again. */
    ghost predicate Closed()
      reads this`live, this`closed, closed`timerSet
    {
      forall s :: s in closed ==> s !in live && !s.timerSet
    }

    /** A limit of one state admits one state or one failed initialization. */
    ghost predicate Single()
      reads this`live, this`initFailures
    {
      config.statesMax == 1 ==> |live| + initFailures <= 1
    }

    /** Closed states stay closed, and a state that is not live any more is closed. */
    twostate predicate NoneLost()
      reads this`live, this`closed
    {
      old(closed) <= closed && forall s :: s in old(live) ==> s in live || s in closed
    }

    /** No lost wake-up: whenever a queued request could be served, the queue timer is armed. */
    ghost predicate AwakeIfNeeded()
      reads this`requests, this`timerSet, this`idle, this`statesN
    {
      requests != [] && Capacity() ==> timerSet
    }

    /** A state of a request; `ran` says that the request has been run, in which case the run is complete or failed. */
    ghost predicate InUse(s: LuaState, ran: bool)
      reads s, this`now
    {
      && BusyState(s) && s.given == s.requestCount + 1
      && (config.stateRequestsMax > 0 ==> s.given <= config.stateRequestsMax)
      && (!ran ==> s.Ready(config.chunks)) && (ran && !s.close ==> s.served > 0)
    }

    ghost predicate BusyStates(running: map<nat, LuaState>, threadDone: set<nat>)
      reads running.Values, this`now
    {
      forall r :: r in running ==> InUse(running[r], r in threadDone)
    }

    /** As long as every thread task could be posted, an idle state has completed a run. */
    ghost predicate IdleStates(idle: seq<LuaState>, posted: bool)
      reads idle, this`now
    {
      forall s :: s in idle ==> IdleState(s) && (posted ==> s.served > 0)
    }

    lemma TakeBusy(running: map<nat, LuaState>, threadDone: set<nat>, r: nat)
      requires BusyStates(running, threadDone) && r in running
      ensures BusyStates(running - {r}, threadDone - {r}) && InUse(running[r], r in threadDone)
    {
      hide InUse;
    }

    lemma PutBusy(running: map<nat, LuaState>, threadDone: set<nat>, r: nat, ran: bool)
      requires r in running && BusyStates(running - {r}, threadDone - {r}) && InUse(running[r], ran)
      ensures BusyStates(running, if ran then threadDone + {r} else threadDone - {r})
    {
      hide InUse;
      forall r' | r' in running && r' != r ensures InUse(running[r'], r' in threadDone) {
        assert r' in running - {r} && (running - {r})[r'] == running[r'];
      }
    }

    lemma NewBusy(running: map<nat, LuaState>, threadDone: set<nat>, r: nat, s: LuaState)
      requires r !in running && r !in threadDone && BusyStates(running, threadDone) && InUse(s, false)
      ensures BusyStates(running[r := s], threadDone)
    {
      hide InUse;
    }

    lemma TakeIdle(idle: seq<LuaState>, posted: bool, i: nat)
      requires IdleStates(idle, posted) && i < |idle|
      ensures IdleStates(Without(idle, i), posted) && IdleStates(idle[i + 1..], posted) && IdleState(idle[i])
    {
      hide IdleState;
      assert forall s :: s in Without(idle, i) ==> s in idle;
    }

    lemma PutIdle(idle: seq<LuaState>, posted: bool, s: LuaState)
      requires IdleStates(idle, posted) && IdleState(s) && (posted ==> s.served > 0)
      ensures IdleStates([s] + idle, posted)
    {
      hide IdleState;
    }

    ghost predicate States()
      reads this`idle, this`running, this`threadDone, this`postFailures, this`now, idle, running.Values
    {
      IdleStates(idle, postFailures == 0) && BusyStates(running, threadDone)
    }

    /** What holds of the states at every moment, also between the steps of a handler. */
    ghost predicate StateInv()
      reads this`statesN, this`live, this`accounts, this`initFailures, this`monitorMemory, this`idle, this`running,
            this`threadDone, this`postFailures, this`closed, this`now, live, idle, running.Values, closed`timerSet
    {
      config.statesMax < WORD && Partition(live, idle, running) && Counters() && States() && Closed() && Single()
    }

    /** What holds whenever no handler is at work. */
    ghost predicate Inv()
      reads this, live, idle, running.Values, closed`timerSet
    {
      StateInv() && Requests({}) && AwakeIfNeeded()
    }

    constructor (config: Config)
      requires config.statesMax < WORD && config.requestsMax < WORD
      ensures Inv() && this.config == config && live == idle == [] && running == map[]
      ensures requests == [] && arrived == {}
      ensures statesN == requestsN == initFailures == postFailures == 0 && !timerSet
    {
      this.config := config;
      statesN, idle, requestsN, requests, timerSet, running := 0, [], 0, [], false, map[];
      monitorMemory, now, live, accounts, closed, initFailures, postFailures := 0, 0, [], [], {}, 0, 0;
      threadDone, queued, dequeued, arrived, failed, completed := {}, [], [], {}, map[], {};
    }

    // ---- what the invariant means ----

    /** With every initialization successful the counters are exact and within bounds. */
    lemma Exact()
      requires Inv() && initFailures == 0 && |idle| + |running| < WORD && |requests| < WORD
      ensures statesN == |idle| + |running| && requestsN == |requests|
      ensures config.statesMax > 0 ==> statesN <= config.statesMax
      ensures config.requestsMax > 0 ==> requestsN <= config.requestsMax
    {
    }

    /** The counter is the number of states less the failed initializations. */
    lemma Counted()
      requires Inv()
      ensures statesN == Wrap(|idle| + |running| - initFailures) && config.statesMax < WORD && running.Keys <= arrived
    {
      hide Ledger, States, Distinct, Sum, Wrap, Accounted;
    }

    /** The limit on states is exceeded by at most the number of failed initializations, and a limit of one never. */
    lemma LiveBound()
      requires Inv() && config.statesMax > 0
      ensures |idle| + |running| <= if config.statesMax == 1 then 1 else config.statesMax + initFailures
    {
      hide States, Requests, Distinct, Sum, Wrap, Accounted;
    }

    /**
      * Over every run an idle state has its timer armed exactly if its life or its idling is limited, at the latest for
      * when the one time has passed since it was made or the other since it became idle.
      */
    lemma IdleDeadline(i: nat)
      requires Inv() && i < |idle|
      ensures var s := idle[i];
        var life := if config.stateTimeMax > 0 then Wrap(s.created + config.stateTimeMax) else INFINITE;
        var idling := if config.stateTimeout > 0 then Wrap(s.released + config.stateTimeout) else INFINITE;
        && s.created <= now && s.released <= now
        && (s.timerSet <==> life != INFINITE || idling != INFINITE)
        && (s.timerSet ==> s.deadline <= life && s.deadline <= idling && s.deadline in {life, idling})
    {
      hide Partition, Requests, Counters, BusyStates, LuaState.Ready;
      assert idle[i] in idle && IdleState(idle[i]);
    }

    /** Over every run a state is never given more requests than it may serve. */
    lemma RequestLimit(s: LuaState)
      requires Inv() && (s in idle || s in running.Values) && config.stateRequestsMax > 0
      ensures s.given <= config.stateRequestsMax
    {
      hide Requests, Counters;
    }

    /** Over every run a closed state is in no queue, serves no request and has no timer armed. */
    lemma ClosedForGood(s: LuaState)
      requires Inv() && s in closed
      ensures s !in live && s !in idle && s !in running.Values && !s.timerSet
    {
      hide States, Requests, Distinct, Counters;
    }

    /**
      * Over every run an idle state has run init exactly once if it is configured and the state has completed a run,
      * and not at all otherwise; every idle state has completed one as long as every thread task could be posted.
      */
    lemma InitOfIdleStates(i: nat)
      requires Inv() && i < |idle|
      ensures idle[i].initRuns <= 1 && (idle[i].initRuns == 1 <==> config.chunks.init != 0 && idle[i].served > 0)
      ensures postFailures == 0 ==> idle[i].served > 0
    {
      hide Partition, Requests, Counters, BusyStates;
      assert idle[i] in idle && IdleState(idle[i]);
    }

    /** Nothing will ever wake the queue up: no timer, and no running request whose end would set one. */
    ghost predicate Stranded()
      reads this
    {
      requests != [] && !timerSet && running == map[]
    }

    /** Requests are stranded exactly if no state is left and failed initializations have used up the counter. */
    lemma StrandedExactly()
      requires Inv() && requests != [] && !timerSet
      ensures Stranded() <==> live == [] && Wrap(0 - initFailures as int) >= config.statesMax > 0
    {
      hide States, Requests, Distinct, Sum, Wrap, Accounted;
      if live == [] { assert |running| == 0; }
    }

    lemma NeverStranded()
      requires Inv() && initFailures == 0
      ensures !Stranded()
    {
      hide States, Requests, Distinct, Sum, Wrap, Accounted;
    }

    // ---- states ----

    /** Delete the timer, uncount and free a state that is in no queue. */
    method CloseState(s: LuaState, ghost k: nat)
      requires k < |live| && live[k] == s && Distinct(live) && Counters()
      modifies this`statesN, this`monitorMemory, this`live, this`closed, this`accounts
      modifies s`timeMax, s`timeout, s`timerSet, s`deadline
      ensures live == Without(old(live), k) && Counters() && statesN == Wrap(old(statesN) - 1)
      ensures closed == old(closed) + {s} && !s.timerSet && (old(Closed()) ==> Closed())
    {
      hide Wrap, Sum, LuaState.TimerMatches, Distinct;
      s.timeMax := INFINITE;
      s.timeout := INFINITE;
      s.SetTimer(now);
      WrapSum(|live| - initFailures, -1);
      statesN := Wrap(statesN - 1);
      WrapSum(Sum(accounts), 0 - s.memoryMonitor);
      monitorMemory := Wrap(monitorMemory + Wrap(0 - s.memoryMonitor));
      Forget(s, k);
    }

    /** The state is live no more. */
    ghost method Forget(s: LuaState, k: nat)
      requires k < |live| && live[k] == s && Distinct(live) && Accounted() && !s.timerSet
      modifies this`live, this`closed, this`accounts
      ensures live == Without(old(live), k) && Accounted() && Sum(accounts) == Sum(old(accounts)) - s.memoryMonitor
      ensures closed == old(closed) + {s}
      ensures (forall c :: c in old(closed) && c != s ==> c !in old(live) && !c.timerSet) ==> Closed()
    {
      hide Sum;
      SumWithout(accounts, k);
      WithoutElements(live, k);
      live, accounts, closed := Without(live, k), Without(accounts, k), closed + {s};
    }

    /** An unsuccessful initialization: counted in no state, but taken off the counter. */
    twostate predicate InitFailed()
      reads this`statesN, this`live, this`initFailures, this`running, this`idle
    {
      && statesN == Wrap(old(statesN) - 1) && initFailures == old(initFailures) + 1
      && live == old(live) && running == old(running) && idle == old(idle)
    }

    /** A task could not be posted: the state is given back as it was, or closed if that was its last request. */
    twostate predicate TaskFailed()
      reads this`idle, idle
    {
      if old(idle) != [] then idle == if old(Reusable(idle[0])) then old(idle) else old(idle)[1..]
      else if config.stateRequestsMax == 1 then idle == []
      else |idle| == 1 && idle[0].served == 0 && !idle[0].init
    }

    /** A new state, or null; a failed initialization closes the state although it was never counted. */
    method CreateState(luck: Luck) returns (s: LuaState?)
      requires Distinct(live) && Counters() && config.statesMax < WORD
      requires config.statesMax == 0 || statesN < config.statesMax
      modifies this`statesN, this`monitorMemory, this`live, this`closed, this`accounts, this`initFailures
      ensures Counters() && (old(Closed()) ==> Closed()) && NoneLost()
      ensures s == null <==> !luck.memory || !luck.init
      ensures s == null ==> live == old(live) && initFailures == old(initFailures) + if luck.memory then 1 else 0
      ensures s == null ==> statesN == if luck.memory then Wrap(old(statesN) - 1) else old(statesN)
      ensures s != null ==> fresh(s) && live == old(live) + [s] && initFailures == old(initFailures)
      ensures s != null ==> !s.inUse && Unused(s) && s.Ready(config.chunks)
      ensures s != null ==> s.created == now && Limited(s)
    {
      hide Counters, Distinct, LuaState.Ready, LuaState.TimerMatches;
      if !luck.memory {
        return null;
      }
      s := new LuaState();
      if !luck.init {
        FailInit(s);
        return null;
      }
      StartTimer(s);
      CountState(s);
    }

    /** The initialization of a new state has failed: the state is closed although it was not counted. */
    method FailInit(s: LuaState)
      requires Distinct(live) && Counters() && s !in live && s !in closed && s.memoryMonitor == 0
      modifies this`statesN, this`monitorMemory, this`live, this`closed, this`accounts, this`initFailures
      modifies s`timeMax, s`timeout, s`timerSet, s`deadline
      ensures Counters() && (old(Closed()) ==> Closed()) && closed == old(closed) + {s}
      ensures live == old(live) && initFailures == old(initFailures) + 1 && statesN == Wrap(old(statesN) - 1)
    {
      hide Wrap, Sum, Distinct;
      SumAppend(accounts, 0);
      live, accounts, initFailures := live + [s], accounts + [0], initFailures + 1;
      AppendDistinct<LuaState>(old(live), s);
      CloseState(s, |live| - 1);
    }

    method CountState(s: LuaState)
      requires Counters() && s !in closed && s.memoryMonitor == 0 && config.statesMax < WORD
      requires config.statesMax == 0 || statesN < config.statesMax
      modifies this`statesN, this`live, this`accounts
      ensures Counters() && live == old(live) + [s] && (old(Closed()) ==> Closed())
    {
      hide Sum, Wrap;
      Room();
      SumAppend(accounts, 0);
      WrapSum(|live| - initFailures, 1);
      live, accounts := live + [s], accounts + [0];
      statesN := Wrap(statesN + 1);
    }

    lemma Room()
      requires Counters() && config.statesMax < WORD && (config.statesMax == 0 || statesN < config.statesMax)
      ensures config.statesMax > 0 ==> |live| < config.statesMax + initFailures
    {
      hide Sum, Accounted;
    }

    /** A state at its first request. */
    ghost predicate Untried(s: LuaState)
      reads s`close, s`timedout, s`requestCount, s`served, s`init
    {
      !s.close && !s.timedout && s.requestCount == 0 && s.served == 0 && !s.init
    }

    ghost predicate Unused(s: LuaState)
      reads s`close, s`timedout, s`requestCount, s`given, s`served, s`init
    {
      !s.close && !s.timedout && s.requestCount == s.given == 0 && s.served == 0 && !s.init
    }

    /** A state that does not idle has its timer armed for its life time, if that is limited. */
    ghost predicate Limited(s: LuaState)
      reads s`timeMax, s`timeout, s`timerSet, s`deadline, s`created, this`now
    {
      && s.timeMax == Deadline(s.created, config.stateTimeMax) && s.timeout == INFINITE && s.TimerMatches()
      && s.created <= now
    }

    method StartTimer(s: LuaState)
      modifies s`timeMax, s`timeout, s`timerSet, s`deadline, s`created
      ensures s.created == now && Limited(s)
    {
      hide Wrap;
      s.created := now;
      s.timeMax := if config.stateTimeMax > 0 then Wrap(now + config.stateTimeMax) else INFINITE;
      s.timeout := INFINITE;
      s.SetTimer(now);
    }

    /** Take the idle state at the head of the queue, or create one. */
    method AcquireState(r: nat, luck: Luck) returns (ok: bool)
      requires StateInv() && Requests({r}) && Capacity() && r !in running && r !in threadDone
      modifies this`statesN, this`idle, this`running, this`monitorMemory, this`live, this`closed, this`accounts,
               this`initFailures, Head()
      ensures StateInv() && Requests(if ok then {} else {r}) && fresh(Live() - old(Live())) && NoneLost()
      ensures ok <==> old(idle) != [] || (luck.memory && luck.init)
      ensures ok ==> r in running && running == old(running)[r := running[r]] && running[r].Ready(config.chunks)
      ensures !ok ==> running == old(running) && idle == old(idle)
      ensures old(idle) != [] ==>
        && running[r] == old(idle)[0] && idle == old(idle)[1..]
        && Reusable(running[r]) == old(Reusable(idle[0]))
      ensures old(idle) == [] && ok ==> idle == [] && Untried(running[r]) && fresh(running[r])
      ensures initFailures == old(initFailures) + if !ok && luck.memory then 1 else 0
      ensures old(idle) == [] && luck.memory && !luck.init ==> InitFailed()
    {
      hide Partition, Counters, States, LuaState.Ready, Ledger;
      LedgerSteps(arrived, requests, running.Keys, failed.Keys, completed, r);
      if idle != [] {
        ReuseState(r);
        ok := true;
      } else {
        ok := NewState(r, luck);
      }
      assert ok ==> running.Keys == old(running).Keys + {r};
    }

    method ReuseState(r: nat)
      requires StateInv() && r !in running && r !in threadDone && idle != []
      modifies this`idle, this`running, idle[0]
      ensures StateInv() && running == old(running)[r := old(idle)[0]] && running[r].Ready(config.chunks)
      ensures idle == old(idle)[1..] && Reusable(running[r]) == old(Reusable(idle[0]))
    {
      hide Partition, Counters, IdleStates, BusyStates, IdleState, BusyState, LuaState.Ready;
      TakeHead(live, idle, running, r);
      TakeIdle(idle, postFailures == 0, 0);
      var s := idle[0];
      idle := idle[1..];
      Unpark(s);
      NewBusy(running, threadDone, r, s);
      running := running[r := s];
    }

    /** Stop the idle timeout of a state. */
    method Unpark(s: LuaState)
      requires IdleState(s)
      modifies s`timeout, s`timerSet, s`deadline, s`inUse, s`given
      ensures InUse(s, false)
    {
      hide LuaState.Ready;
      s.given := s.given + 1;
      if config.stateTimeout > 0 {
        s.timeout := INFINITE;
        s.SetTimer(now);
      }
      s.inUse := true;
    }

    /** With a limit of one state, the first one is made or fails once. */
    lemma FirstOfOne()
      requires Counters() && Single() && config.statesMax == 1 && statesN == 0
      ensures |live| + initFailures == 0
    {
      hide Distinct, Sum, Accounted;
    }

    method NewState(r: nat, luck: Luck) returns (ok: bool)
      requires StateInv() && r !in running && r !in threadDone
      requires config.statesMax == 0 || statesN < config.statesMax
      modifies this`statesN, this`running, this`monitorMemory, this`live, this`closed, this`accounts, this`initFailures
      ensures StateInv() && fresh(Live() - old(Live())) && NoneLost()
      ensures ok <==> luck.memory && luck.init
      ensures ok ==> r in running && running == old(running)[r := running[r]] && running[r].Ready(config.chunks)
      ensures ok ==> Untried(running[r]) && fresh(running[r])
      ensures !ok ==> running == old(running)
      ensures initFailures == old(initFailures) + if !ok && luck.memory then 1 else 0
      ensures luck.memory && !luck.init ==> InitFailed()
    {
      hide Partition, Counters, Closed, Distinct, IdleStates, BusyStates, BusyState, InUse, Limited, Deadline, Wrap,
           LuaState.Ready, LuaState.TimerMatches;
      if config.statesMax == 1 { FirstOfOne(); }
      var s := CreateState(luck);
      if s == null {
        return false;
      }
      Enter(s);
      NewBusy(running, threadDone, r, s);
      TakeNew<LuaState>(old(live), idle, running, r, s);
      running := running[r := s];
      return true;
    }

    method Enter(s: LuaState)
      requires !s.timedout && s.Ready(config.chunks) && Limited(s) && s.requestCount == s.given == 0
      modifies s`inUse, s`given
      ensures InUse(s, false)
    {
      hide LuaState.Ready;
      s.given := 1;
      s.inUse := true;
    }

    /** Whether a state that has served its request may serve another. */
    predicate Reusable(s: LuaState)
      reads s
    {
      !s.close && !s.timedout && (config.stateRequestsMax > 0 ==> s.requestCount + 1 < config.stateRequestsMax)
    }

    /** A state that has served its request and may become idle. */
    ghost predicate Restable(s: LuaState)
      reads s, this`now
    {
      && BusyState(s) && s.given == s.requestCount && !s.close && !s.timedout
      && (config.stateRequestsMax > 0 ==> s.requestCount < config.stateRequestsMax)
    }

    /** What holds of the other states while the state of a request is being released. */
    ghost predicate Releasing(r: nat)
      reads this`statesN, this`live, this`accounts, this`initFailures, this`monitorMemory, this`idle, this`running,
            this`threadDone, this`postFailures, this`closed, this`now, live, idle, (running - {r}).Values,
            closed`timerSet
    {
      && config.statesMax < WORD && Partition(live, idle, running) && Counters() && Closed() && Single()
      && IdleStates(idle, postFailures == 0) && BusyStates(running - {r}, threadDone - {r})
    }

    /** Count the request that a state has served; it was the last one if the state may not serve another. */
    method CountRequest(r: nat, s: LuaState) returns (last: bool)
      requires StateInv() && r in running && running[r] == s && s !in idle && s !in (running - {r}).Values
      modifies s`requestCount
      ensures Releasing(r) && s.requestCount == s.given == old(s.requestCount) + 1
      ensures last == !old(Reusable(s)) && (!last ==> Restable(s))
    {
      hide Partition, Counters, IdleStates, BusyStates, LuaState.Ready, LuaState.TimerMatches;
      TakeBusy(running, threadDone, r);
      s.requestCount := s.requestCount + 1;
      last := s.close || s.timedout || (config.stateRequestsMax > 0 && s.requestCount >= config.stateRequestsMax);
    }

    /** What holds of the states when the state of a request has been closed or has become idle. */
    ghost predicate Settled(r: nat)
      reads this`statesN, this`live, this`accounts, this`initFailures, this`monitorMemory, this`idle, this`running,
            this`threadDone, this`postFailures, this`closed, this`now, live, idle, (running - {r}).Values,
            closed`timerSet
    {
      && config.statesMax < WORD && Partition(live, idle, running - {r}) && Counters() && Closed() && Single()
      && IdleStates(idle, postFailures == 0) && BusyStates(running - {r}, threadDone - {r})
    }

    method Discard(r: nat, s: LuaState, ghost k: nat)
      requires Releasing(r) && r in running && k < |live| && live[k] == running[r] == s
      requires s !in idle && s !in (running - {r}).Values
      modifies this`statesN, this`monitorMemory, this`live, this`closed, this`accounts, s
      ensures Settled(r) && Live() <= old(Live()) && NoneLost() && s in closed
      ensures s.served == old(s.served) && s.init == old(s.init) && s.requestCount == old(s.requestCount)
    {
      hide Partition, Counters, IdleStates, BusyStates, InUse, Wrap, Accounted, Distinct;
      CloseBusy(live, idle, running, r, k);
      CloseState(s, k);
    }

    method Keep(r: nat, s: LuaState, used: nat, ghost k: nat)
      requires Releasing(r) && r in running && k < |live| && live[k] == running[r] == s && Restable(s)
      requires s !in idle && s !in (running - {r}).Values
      requires postFailures > 0 || s.served > 0
      modifies this`idle, this`monitorMemory, this`accounts, s
      ensures Settled(r) && idle == [s] + old(idle) && s.served == old(s.served) && s.init == old(s.init)
      ensures s.requestCount == old(s.requestCount) && s.released == now && s.memoryMonitor == s.memoryUsed == used
    {
      hide Partition, Counters, IdleStates, BusyStates, InUse, Wrap, Accounted, Distinct, Restable, IdleState;
      GiveBack(live, idle, running, r);
      UpdateMonitor(s, used, k);
      Park(s);
      PutIdle(idle, postFailures == 0, s);
      idle := [s] + idle;
    }

    /** The request has no state any more. */
    method Unassign(r: nat)
      requires Settled(r) && Requests({}) && r in running
      modifies this`running, this`threadDone
      ensures StateInv() && Requests({r}) && running == old(running) - {r} && threadDone == old(threadDone) - {r}
    {
      hide Partition, Counters, IdleStates, BusyStates, Ledger;
      LedgerStop(arrived, requests, running.Keys, failed.Keys, completed, r);
      running := running - {r};
      threadDone := threadDone - {r};
    }

    /** Close the state of a request or put it before the idle ones; `used` is its memory after any collection. */
    method ReleaseState(r: nat, used: nat)
      requires StateInv() && Requests({}) && r in running
      requires running[r].close || postFailures > 0 || running[r].served > 0
      modifies this`threadDone, this`statesN, this`idle, this`running, this`monitorMemory, this`live, this`closed,
               this`accounts, running[r]
      ensures StateInv() && Requests({r}) && Live() <= old(Live()) && NoneLost()
      ensures var s, max := old(running)[r], config.stateRequestsMax;
        s in closed <==> old(s.close) || old(s.timedout) || (max > 0 && old(s.requestCount) + 1 >= max)
      ensures running == old(running) - {r} && threadDone == old(threadDone) - {r}
      ensures idle == if old(Reusable(running[r])) then [old(running)[r]] + old(idle) else old(idle)
      ensures old(Reusable(running[r])) ==> statesN == old(statesN)
      ensures old(running)[r].served == old(running[r].served) && old(running)[r].init == old(running[r].init)
      ensures old(running)[r].requestCount == old(running[r].requestCount) + 1
      // a state that is kept counts its idle time from now, and is on the monitor's account with its memory
      ensures old(Reusable(running[r])) ==>
        var s := old(running)[r]; s.released == now && s.memoryMonitor == s.memoryUsed == used
    {
      hide Partition, Counters, Requests, States, Settled, Restable;
      ghost var k := BusyIndex(live, idle, running, r);
      var s := running[r];
      var last := CountRequest(r, s);
      if last {
        Discard(r, s, k);
      } else {
        Keep(r, s, used, k);
      }
      Unassign(r);
    }

    /** Start the idle timeout of a state. */
    method Park(s: LuaState)
      requires Restable(s)
      modifies s`timeout, s`timerSet, s`deadline, s`inUse, s`released
      ensures IdleState(s) && s.released == now
    {
      hide Wrap;
      s.released := now;
      if config.stateTimeout > 0 {
        s.timeout := Wrap(now + config.stateTimeout);
        s.SetTimer(now);
      }
      s.inUse := false;
    }

    method UpdateMonitor(s: LuaState, used: nat, ghost k: nat)
      requires Counters() && Distinct(live) && k < |live| && live[k] == s && Restable(s)
      modifies this`monitorMemory, this`accounts, s`memoryUsed, s`memoryMonitor
      ensures Counters() && s.memoryMonitor == s.memoryUsed == used && Restable(s)
    {
      hide Wrap, Sum;
      s.memoryUsed := used;
      SumUpdate(accounts, k, used);
      WrapSum(Sum(accounts), used - s.memoryMonitor);
      monitorMemory := Wrap(monitorMemory + Wrap(used - s.memoryMonitor));
      s.memoryMonitor := used;
      accounts := accounts[k := used];
    }

    // ---- handlers ----

    ghost method CountPostFailure()
      requires StateInv()
      modifies this`postFailures
      ensures StateInv() && postFailures == old(postFailures) + 1
    {
      hide Partition, Counters, BusyStates, IdleState;
      postFailures := postFailures + 1;
    }

    /** Whether a request will be given a state. */
    ghost predicate Acquires(luck: Luck)
      reads this`idle
    {
      idle != [] || (luck.memory && luck.init)
    }

    /** Acquire a state and post the thread task for a request; on any failure answer with 500. */
    method StateHandler(r: nat, luck: Luck)
      requires StateInv() && Requests({r}) && Capacity()
      modifies this`statesN, this`idle, this`running, this`monitorMemory, this`live, this`closed, this`accounts,
               this`initFailures, this`postFailures, this`failed, this`threadDone, Head()
      ensures StateInv() && Requests({}) && fresh(Live() - old(Live())) && NoneLost()
      ensures r in running <==> old(Acquires(luck)) && luck.task
      ensures luck.Good() ==> r in running
      ensures r in running ==> failed == old(failed) && idle == if old(idle) == [] then [] else old(idle)[1..]
      ensures r in running ==> running == old(running)[r := running[r]]
      ensures r in running && old(idle) != [] ==> running[r] == old(idle)[0]
      ensures r !in running ==> failed == old(failed)[r := INTERNAL_SERVER_ERROR] && running == old(running)
      ensures !old(Acquires(luck)) ==> idle == []
      ensures forall s :: s in idle ==> s in old(idle) || fresh(s)
      ensures old(Acquires(luck)) && !luck.task ==> TaskFailed()
      ensures old(idle) == [] && luck.memory && !luck.init ==> InitFailed()
      ensures initFailures == old(initFailures) + if old(idle) == [] && luck.memory && !luck.init then 1 else 0
      ensures postFailures == old(postFailures) + if old(Acquires(luck)) && !luck.task then 1 else 0
    {
      hide StateInv, Requests, LuaState.Ready;
      NotYetServed(r);
      var ok := AcquireState(r, luck);
      if !ok {
        Fail(r, INTERNAL_SERVER_ERROR);
        return;
      }
      if !luck.task {
        ghost var s := running[r];
        GiveUp(r, luck.used);
        assert old(idle) != [] ==> [s] + old(idle)[1..] == old(idle);
      }
    }

    /** The thread task of a request could not be posted. */
    method GiveUp(r: nat, used: nat)
      requires StateInv() && Requests({}) && r in running
      modifies this`statesN, this`idle, this`running, this`monitorMemory, this`live, this`closed, this`accounts,
               this`postFailures, this`failed, this`threadDone, running[r]
      ensures StateInv() && Requests({}) && Live() <= old(Live()) && NoneLost() && postFailures == old(postFailures) + 1
      ensures failed == old(failed)[r := INTERNAL_SERVER_ERROR] && running == old(running) - {r}
      ensures idle == if old(Reusable(running[r])) then [old(running)[r]] + old(idle) else old(idle)
      ensures old(running)[r].served == old(running[r].served) && old(running)[r].init == old(running[r].init)
    {
      hide StateInv, Requests;
      CountPostFailure();
      ReleaseState(r, used);
      Fail(r, INTERNAL_SERVER_ERROR);
    }

    lemma NotYetServed(r: nat)
      requires Requests({r})
      ensures r !in running && r !in requests && r !in threadDone
    {
    }

    /** A request has its body: run it, queue it, or refuse it with 503. */
    method BodyHandler(r: nat, body: bool, luck: Luck)
      requires Inv() && r !in arrived
      modifies this`statesN, this`idle, this`running, this`monitorMemory, this`live, this`closed, this`accounts,
               this`initFailures, this`postFailures, this`threadDone, this`failed, this`arrived, this`requests,
               this`requestsN, this`queued, Head()
      ensures Inv() && arrived == old(arrived) + {r} && fresh(Live() - old(Live())) && NoneLost()
      ensures body && old(Capacity()) ==>
        && initFailures == old(initFailures) + (if old(idle) == [] && luck.memory && !luck.init then 1 else 0)
        && postFailures == old(postFailures) + if old(Acquires(luck)) && !luck.task then 1 else 0
      ensures !(body && old(Capacity())) ==> initFailures == old(initFailures) && postFailures == old(postFailures)
      ensures var room := config.requestsMax == 0 || old(requestsN) < config.requestsMax;
              requests == if body && !old(Capacity()) && room then old(requests) + [r] else old(requests)
      ensures var limited := config.statesMax > 0 && old(statesN) >= config.statesMax;
              r in running <==> body && (old(idle) != [] || (!limited && luck.memory && luck.init)) && luck.task
      ensures failed == if r in running || r in requests then old(failed)
                        else old(failed)[r := if body && !old(Capacity()) then 503 else 500]
      ensures r in running ==> idle == if old(idle) == [] then [] else old(idle)[1..]
      ensures running == if r in running then old(running)[r := running[r]] else old(running)
      ensures r in running && old(idle) != [] ==> running[r] == old(idle)[0]
      ensures body && old(Capacity()) && old(Acquires(luck)) && !luck.task ==> TaskFailed()
      ensures body && old(Capacity()) && old(idle) == [] && luck.memory && !luck.init ==> InitFailed()
      ensures !(body && old(Capacity())) ==> statesN == old(statesN) && idle == old(idle)
    {
      hide StateInv, Requests, Wrap;
      Arrive(r);
      NotYetServed(r);
      if !body {
        Fail(r, INTERNAL_SERVER_ERROR);
      } else if Capacity() {
        StateHandler(r, luck);
      } else if config.requestsMax == 0 || requestsN < config.requestsMax {
        Enqueue(r);
      } else {
        Fail(r, SERVICE_UNAVAILABLE);
      }
    }

    method Arrive(r: nat)
      requires Requests({}) && r !in arrived
      modifies this`arrived
      ensures Requests({r}) && arrived == old(arrived) + {r}
    {
      hide Ledger;
      LedgerArrive(arrived, requests, running.Keys, failed.Keys, completed, r);
      arrived := arrived + {r};
    }

    /** The request is answered with an error status without having run. */
    ghost method Fail(r: nat, status: int)
      requires Requests({r})
      modifies this`failed
      ensures Requests({}) && failed == old(failed)[r := status]
    {
      hide Ledger;
      LedgerSteps(arrived, requests, running.Keys, failed.Keys, completed, r);
      assert failed[r := status].Keys == failed.Keys + {r};
      failed := failed[r := status];
    }

    method Enqueue(r: nat)
      requires Requests({r}) && (config.requestsMax == 0 || requestsN < config.requestsMax)
      modifies this`requests, this`requestsN, this`queued
      ensures Requests({}) && requests == old(requests) + [r]
    {
      hide Ledger, Wrap;
      LedgerSteps(arrived, requests, running.Keys, failed.Keys, completed, r);
      WrapSum(|requests|, 1);
      requestsN := Wrap(requestsN + 1);
      requests := requests + [r];
      queued := queued + [r];
    }

    method Dequeue() returns (r: nat)
      requires Requests({}) && requests != []
      modifies this`requests, this`requestsN, this`dequeued
      ensures Requests({r}) && requests == old(requests)[1..]
      ensures r == old(requests)[0] && dequeued == old(dequeued) + [r]
    {
      hide Ledger, Wrap;
      LedgerDequeue(arrived, requests, running.Keys, failed.Keys, completed);
      WrapSum(|requests|, -1);
      r := requests[0];
      requestsN := Wrap(requestsN - 1);
      requests := requests[1..];
      dequeued := dequeued + [r];
    }

    /** The queue timer has fired: dispatch waiting requests, first come first, as long as there is capacity. */
    method QueueHandler(luck: nat -> Luck)
      requires Inv() && timerSet
      modifies this`statesN, this`idle, this`running, this`monitorMemory, this`live, this`closed, this`accounts,
               this`initFailures, this`postFailures, this`threadDone, this`failed, this`requests, this`requestsN,
               this`dequeued, this`timerSet, set s | s in idle
      ensures Inv() && fresh(Live() - old(Live())) && NoneLost()
      ensures !timerSet && (requests == [] || (idle == [] && 0 < config.statesMax <= statesN))
      ensures (forall i :: luck(i).init) ==> initFailures == old(initFailures)
      ensures (forall i :: luck(i).task) ==> postFailures == old(postFailures)
      ensures old(dequeued) <= dequeued
      // what is taken from the queue runs, unless something goes wrong
      ensures var n := |old(requests)| - |requests|;
        && n >= 0 && requests == old(requests)[n..]
        && forall j :: 0 <= j < n && luck(j).Good() ==> old(requests)[j] in running
      ensures (forall i :: luck(i).Good()) ==> failed == old(failed)
    {
      hide StateInv, Requests, TaskFailed, InitFailed, Acquires;
      timerSet := false;
      var n := 0;
      while requests != [] && Capacity()
        invariant StateInv() && Requests({}) && fresh(Live() - old(Live())) && NoneLost() && !timerSet
        invariant (forall i :: luck(i).init) ==> initFailures == old(initFailures)
        invariant (forall i :: luck(i).task) ==> postFailures == old(postFailures)
        invariant (forall i :: luck(i).Good()) ==> failed == old(failed)
        invariant forall s :: s in idle ==> s in old(idle) || fresh(s)
        invariant old(dequeued) <= dequeued
        invariant n + |requests| == |old(requests)| && requests == old(requests)[n..]
        invariant forall j :: 0 <= j < n && luck(j).Good() ==> old(requests)[j] in running
        decreases |requests|
      {
        var r := Dequeue();
        StateHandler(r, luck(n));
        n := n + 1;
      }
    }

    /** The result of a request: that of the pre chunk if it completes the request, else that of the main chunk. */
    ghost function Decided(outcome: Kind -> Outcome): int {
      var o := outcome(Pre);
      if config.chunks.pre != 0 && (Completes(o) || ResultOf(o) > 0) then ResultOf(o) else ResultOf(outcome(Main))
    }

    /** Whether a run on a state, given whether it is its first and what chunks it has cached, ends without an error. */
    ghost predicate Succeeds(first: bool, cached: set<FileName>, main: FileName, loads: Kind -> bool,
                             outcome: Kind -> Outcome)
    {
      var c := config.chunks.(main := main);
      AllWork(c, Plan(c, first, Completed(c, outcome)), cached, loads, outcome)
    }

    /** Run the chunks on a state; an error or lws.setclose marks the state for closing. */
    method RunState(s: LuaState, r: nat, main: FileName, loads: Kind -> bool, outcome: Kind -> Outcome, setClose: bool)
      returns (rc: int)
      requires InUse(s, false)
      modifies s`chunks, s`ran, s`initRuns, s`init, s`served, s`close
      ensures InUse(s, true) && (s.close <==> old(s.close) || rc < 0 || setClose)
      ensures rc >= 0 <==> Succeeds(!old(s.init), old(s.chunks).Keys, main, loads, outcome)
      ensures rc == if rc >= 0 then Decided(outcome) else -1
    {
      hide AllWork, StoppedAt, Plan;
      var result, complete := s.Run(config.chunks.(main := main), r, loads, outcome);
      rc := if result.Some? then result.value else -1;
      if result.None? || setClose {
        s.close := true;
      }
    }

    /** The thread of a request runs its chunks. */
    method ThreadHandler(r: nat, main: FileName, loads: Kind -> bool, outcome: Kind -> Outcome, setClose: bool)
      returns (rc: int)
      requires Inv() && r in running && r !in threadDone
      modifies this`threadDone, running[r]
      ensures Inv() && threadDone == old(threadDone) + {r}
      ensures running[r].requestCount == old(running[r].requestCount)
      ensures running[r].close <==> old(running[r].close) || rc < 0 || setClose
      // the result is that of the chunk that decided, exactly if every chunk of the run can be had and goes well
      ensures rc >= 0 <==> Succeeds(!old(running[r].init), old(running[r].chunks).Keys, main, loads, outcome)
      ensures rc == if rc >= 0 then Decided(outcome) else -1
    {
      hide Ledger, Partition, Counters, IdleStates, BusyStates, InUse, Decided, Succeeds;
      ghost var k := BusyIndex(live, idle, running, r);
      TakeBusy(running, threadDone, r);
      rc := RunState(running[r], r, main, loads, outcome, setClose);
      PutBusy(running, threadDone, r, true);
      threadDone := threadDone + {r};
    }

    lemma FitOrClosing(r: nat)
      requires StateInv() && Requests({}) && r in threadDone
      ensures r in running && (running[r].close || running[r].served > 0)
    {
      assert InUse(running[r], true);
    }

    /** The thread is done: release the state and, if requests wait, arm the queue timer. */
    method FinalizationHandler(r: nat, used: nat)
      requires Inv() && r in threadDone
      modifies this`statesN, this`idle, this`running, this`monitorMemory, this`live, this`closed, this`accounts,
               this`threadDone, this`completed, this`timerSet, running[r]
      ensures Inv() && Live() <= old(Live()) && completed == old(completed) + {r} && running == old(running) - {r}
      ensures timerSet <==> old(timerSet) || requests != []
      ensures NoneLost() && (old(running)[r] in closed <==> !old(Reusable(running[r])))
      ensures idle == if old(Reusable(running[r])) then [old(running)[r]] + old(idle) else old(idle)
    {
      hide StateInv, Requests;
      FitOrClosing(r);
      ReleaseState(r, used);
      if requests != [] && !timerSet {
        timerSet := true;
      }
      Complete(r);
    }

    ghost method Complete(r: nat)
      requires Requests({r})
      modifies this`completed
      ensures Requests({}) && completed == old(completed) + {r}
    {
      hide Ledger;
      LedgerSteps(arrived, requests, running.Keys, failed.Keys, completed, r);
      completed := completed + {r};
    }

    /** The timer of an idle state has fired: the state is closed at once. */
    method IdleTimerHandler(i: nat)
      requires Inv() && i < |idle| && idle[i].timerSet && idle[i].deadline <= now
      modifies this`statesN, this`idle, this`monitorMemory, this`live, this`closed, this`accounts, idle[i]
      ensures Inv() && Live() <= old(Live()) && NoneLost()
      ensures idle == Without(old(idle), i) && old(idle)[i] in closed
    {
      hide Partition, Counters, Ledger, IdleStates, BusyStates, IdleState, Distinct;
      ghost var k := IdleIndex(live, idle, running, i);
      TakeIdle(idle, postFailures == 0, i);
      CloseIdle(live, idle, running, i, k);
      var s := idle[i];
      s.timerSet := false;
      s.timedout := true;
      idle := idle[..i] + idle[i + 1..];
      assert idle == Without(old(idle), i);
      CloseState(s, k);
    }

    /** The timer of a state in use has fired: nothing happens until its request is finalized. */
    method BusyTimerHandler(r: nat)
      requires Inv() && r in running && running[r].timerSet && running[r].deadline <= now
      modifies running[r]
      ensures Inv() && running[r].timedout
      // nothing else happens to the state while its request runs
      ensures var s := running[r]; s.close == old(s.close) && s.inUse == old(s.inUse) && s.chunks == old(s.chunks)
      ensures var s := running[r]; s.requestCount == old(s.requestCount) && s.served == old(s.served)
    {
      hide Partition, Counters, Requests, IdleStates, BusyStates, LuaState.Ready;
      ghost var k := BusyIndex(live, idle, running, r);
      TakeBusy(running, threadDone, r);
      var s := running[r];
      s.timerSet := false;
      s.timedout := true;
      PutBusy(running, threadDone, r, r in threadDone);
      assert threadDone == if r in threadDone then threadDone + {r} else threadDone - {r};
    }

    /** Any order of events; one that cannot happen in the present state is skipped. */
    method EventLoop(events: seq<Event>)
      requires Inv()
      modifies this, Live()
      ensures Inv() && fresh(Live() - old(Live())) && NoneLost()
      ensures forall e :: e in events ==> (e.Arrives? ==> e.r in arrived) && (e.Clock? ==> now >= e.now)
      ensures old(initFailures) == 0 && (forall e :: e in events ==> Initializes(e)) ==>
        initFailures == 0 && !Stranded()
      ensures old(postFailures) == 0 && (forall e :: e in events ==> Posts(e)) ==> postFailures == 0
      // stranded requests stay so, whatever happens
      ensures old(Stranded()) ==> Stranded() && old(requests) <= requests
    {
      hide StateInv, Requests, AwakeIfNeeded;
      for n := 0 to |events|
        invariant Inv() && fresh(Live() - old(Live())) && NoneLost()
        invariant forall e :: e in events[..n] ==> (e.Arrives? ==> e.r in arrived) && (e.Clock? ==> now >= e.now)
        invariant old(initFailures) == 0 && (forall e :: e in events ==> Initializes(e)) ==> initFailures == 0
        invariant old(postFailures) == 0 && (forall e :: e in events ==> Posts(e)) ==> postFailures == 0
        invariant old(Stranded()) ==> Stranded() && old(requests) <= requests
      {
        assert events[n] in events;
        Dispatch(events[n]);
      }
      if initFailures == 0 { NeverStranded(); }
    }

    /** The clock never runs backwards. */
    method Tick(t: nat)
      requires Inv()
      modifies this`now
      ensures Inv() && now == if t > old(now) then t else old(now)
    {
      hide Partition, Counters, Requests, Distinct, LuaState.Ready, LuaState.TimerMatches, Deadline;
      now := if t > now then t else now;
      assert BusyStates(running, threadDone) by {
        forall r | r in running ensures InUse(running[r], r in threadDone) {
          assert old(InUse(running[r], r in threadDone));
        }
      }
    }

    /** An event that can happen does. */
    twostate predicate Happened(e: Event)
      reads this, idle, running.Values
    {
      match e
      case Arrives(r, _, _) => r in arrived
      case QueueTimer(_) => old(timerSet) ==> requests == [] || (idle == [] && 0 < config.statesMax <= statesN)
      case ThreadRuns(r, _, _, _, _) => r in old(running) ==> r in threadDone
      case ThreadEnds(r, _) => r in old(threadDone) ==> r in completed && r !in running
      case IdleTimer(i) => old(i < |idle| && idle[i].timerSet && idle[i].deadline <= now) ==> old(idle)[i] in closed
      case BusyTimer(r) =>
        old(r in running && running[r].timerSet && running[r].deadline <= now) ==> r in running && running[r].timedout
      case Clock(t) => now >= t
    }

    method Dispatch(e: Event)
      requires Inv()
      modifies this, Live()
      ensures Inv() && fresh(Live() - old(Live())) && NoneLost() && old(arrived) <= arrived && old(now) <= now
      ensures Happened(e)
      ensures Initializes(e) ==> initFailures == old(initFailures)
      ensures Posts(e) ==> postFailures == old(postFailures)
      ensures old(Stranded()) ==> Stranded() && old(requests) <= requests
    {
      hide Inv, Happened, NoneLost, Stranded;
      if e.IdleTimer? || e.BusyTimer? || e.Clock? {
        TimeStep(e);
      } else {
        RequestStep(e);
      }
    }

    method RequestStep(e: Event)
      requires Inv() && !e.IdleTimer? && !e.BusyTimer? && !e.Clock?
      modifies this, Live()
      ensures Inv() && fresh(Live() - old(Live())) && NoneLost() && old(arrived) <= arrived && old(now) <= now
      ensures Happened(e)
      ensures Initializes(e) ==> initFailures == old(initFailures)
      ensures Posts(e) ==> postFailures == old(postFailures)
      ensures old(Stranded()) ==> Stranded() && old(requests) <= requests
    {
      hide StateInv, Requests;
      AllLive();
      match e
      case Arrives(r, body, luck) =>
        if r !in arrived { BodyHandler(r, body, luck); }
      case QueueTimer(lucks) =>
        if timerSet { QueueHandler(lucks); }
      case ThreadRuns(r, main, loads, outcome, setClose) =>
        if r in running && r !in threadDone {
          var rc := ThreadHandler(r, main, loads, outcome, setClose);
        }
      case ThreadEnds(r, used) =>
        if r in threadDone {
          FitOrClosing(r);
          FinalizationHandler(r, used);
        }
    }

    method TimeStep(e: Event)
      requires Inv() && (e.IdleTimer? || e.BusyTimer? || e.Clock?)
      modifies this, Live()
      ensures Inv() && fresh(Live() - old(Live())) && NoneLost() && old(arrived) <= arrived && old(now) <= now
      ensures Happened(e)
      ensures Initializes(e) ==> initFailures == old(initFailures)
      ensures Posts(e) ==> postFailures == old(postFailures)
      ensures old(Stranded()) ==> Stranded() && old(requests) <= requests
    {
      hide StateInv, Requests;
      AllLive();
      match e
      case IdleTimer(i) =>
        if i < |idle| && idle[i].timerSet && idle[i].deadline <= now { IdleTimerHandler(i); }
      case BusyTimer(r) =>
        if r in running && running[r].timerSet && running[r].deadline <= now { BusyTimerHandler(r); }
      case Clock(t) =>
        Tick(t);
    }
  }

  /** A request is stranded: the only state there could be failed to initialize, and so the counter is at its limit. */
  method StrandRequest(chunks: Chunks) returns (pool: Pool)
    ensures fresh(pool) && fresh(pool.Live()) && pool.Inv() && pool.Stranded() && pool.requests == [1]
    ensures pool.initFailures == 1 && pool.config.statesMax == 32
  {
    hide Pool.StateInv, Ledger, Wrap;
    WrapNegative(-1);
    pool := new Pool(Config(32, 256, 0, 0, 0, chunks));
    pool.BodyHandler(0, true, Luck(true, false, true, 0));
    assert pool.initFailures == 1;
    pool.BodyHandler(1, true, Luck(true, true, true, 0));
  }

  /** Whatever happens then, the request goes on waiting. */
  method StrandedRequest(chunks: Chunks, events: seq<Event>) returns (pool: Pool)
    ensures pool.Inv() && pool.Stranded() && 1 in pool.requests
  {
    hide Pool.Inv;
    pool := StrandRequest(chunks);
    pool.EventLoop(events);
    assert [1] <= pool.requests;
    assert pool.requests[0] == 1;
  }

  /** The bound on states is met: whatever the limit from two on, each failed initialization lets one more state be. */
  method Overrun(chunks: Chunks, max: nat, failures: nat) returns (pool: Pool)
    requires 2 <= max < WORD
    ensures pool.Inv() && pool.config.statesMax == max && pool.initFailures == failures
    ensures |pool.running| == max + failures
  {
    hide Crowded;
    pool := StartCrowd(chunks, max);
    for n := 0 to max - 1
      invariant Crowded(pool, n, 0, n) && pool.config.statesMax == max && fresh(pool) && fresh(pool.Live())
    {
      Crowd(pool, n, 0, n, true);
    }
    for f := 0 to failures
      invariant Crowded(pool, max - 1 + f, f, max - 1 + 2 * f)
      invariant pool.config.statesMax == max && fresh(pool) && fresh(pool.Live())
    {
      Crowd(pool, max - 1 + f, f, max - 1 + 2 * f, false);
      Crowd(pool, max - 1 + f, f + 1, max + 2 * f, true);
    }
    Crowd(pool, max - 1 + failures, failures, max - 1 + 2 * failures, true);
    CrowdSize(pool, max + failures, failures, max + 2 * failures);
  }

  method StartCrowd(chunks: Chunks, max: nat) returns (pool: Pool)
    requires max < WORD
    ensures Crowded(pool, 0, 0, 0) && pool.config.statesMax == max && fresh(pool) && fresh(pool.Live())
  {
    hide Pool.Inv;
    pool := new Pool(Config(max, 0, 0, 0, 0, chunks));
  }

  lemma CrowdSize(pool: Pool, states: nat, failures: nat, requests: nat)
    requires Crowded(pool, states, failures, requests)
    ensures pool.Inv() && |pool.running| == states && pool.initFailures == failures
  {
  }

  /** Every state is in use, after some failed initializations and requests. */
  ghost predicate Crowded(pool: Pool, states: nat, failures: nat, requests: nat)
    reads pool, pool.live, pool.idle, pool.running.Values, pool.closed`timerSet
  {
    && pool.Inv() && pool.idle == [] && |pool.running| == states && pool.initFailures == failures
    && forall r :: r in pool.arrived ==> r < requests
  }

  /** One more request, for which a new state is made or fails to be. */
  method Crowd(pool: Pool, ghost states: nat, ghost failures: nat, request: nat, init: bool)
    requires Crowded(pool, states, failures, request) && failures <= states < pool.config.statesMax + failures
    modifies pool, pool.Live()
    ensures fresh(pool.Live() - old(pool.Live()))
    ensures if init then Crowded(pool, states + 1, failures, request + 1)
            else Crowded(pool, states, failures + 1, request + 1)
  {
    hide Pool.StateInv, Pool.Requests, Pool.AwakeIfNeeded;
    pool.Counted();
    pool.BodyHandler(request, true, Luck(true, init, true, 0));
  }

  /** A run that leaves an idle state which has not run init: its only thread task could not be posted. */
  method IdleWithoutInit(chunks: Chunks) returns (pool: Pool)
    ensures pool.Inv() && |pool.idle| == 1 && pool.idle[0].served == 0 && pool.idle[0].initRuns == 0
  {
    hide Pool.StateInv, Ledger, Wrap;
    pool := new Pool(Config(32, 256, 0, 0, 0, chunks));
    pool.BodyHandler(0, true, Luck(true, true, false, 0));
    pool.InitOfIdleStates(0);
  }
}
