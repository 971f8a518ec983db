/** A Lua state and the run of a request's chunks on it (src/lws_lib.c, src/lws_state.c). */
module LuaStates {
  import opened Wrappers

  /** Length of ngx_uint_t, size_t and ngx_msec_t arithmetic. */
  const WORD: int := 0x1_0000_0000_0000_0000

  function Wrap(x: int): (w: nat)
    ensures w < WORD
    ensures 0 <= x < WORD ==> w == x
  {
    x % 0x1_0000_0000_0000_0000
  }

  lemma WrapSum(a: int, b: int)
    ensures Wrap(Wrap(a) + b) == Wrap(a + b) == Wrap(Wrap(a) + Wrap(b))
  {
  }

  /** Below zero the counter shows how far it is from 2^64. */
  lemma WrapNegative(x: int)
    requires -WORD <= x < 0
    ensures Wrap(x) == WORD + x
  {
  }

  /** NGX_TIMER_INFINITE. */
  const INFINITE: int := WORD - 1

  datatype Kind = Init | Pre | Main | Post

  /** What calling a chunk comes to; `completes` says that it called lws.setcomplete or lws.redirect. */
  datatype Outcome =
    | Raises
    | ReturnsNil(completes: bool)
    | ReturnsInteger(value: int, completes: bool)
    | ReturnsOther

  /** A Lua integer cut down to a C int. */
  function ToInt(value: int): (i: int)
    ensures -0x8000_0000 <= i < 0x8000_0000
    ensures (value - i) % 0x1_0000_0000 == 0
    ensures -0x8000_0000 <= value < 0x8000_0000 ==> i == value
  {
    (value + 0x8000_0000) % 0x1_0000_0000 - 0x8000_0000
  }

  /** What a returned value counts as; nil is zero. */
  function ResultOf(o: Outcome): int {
    if o.ReturnsInteger? then ToInt(o.value) else 0
  }

  predicate Completes(o: Outcome) {
    match o case ReturnsNil(completes) => completes case ReturnsInteger(_, completes) => completes case _ => false
  }

  /** The call of a chunk goes well: it returns nil, or an integer that is not negative as a C int. */
  predicate Fine(o: Outcome) {
    o.ReturnsNil? || (o.ReturnsInteger? && ToInt(o.value) >= 0)
  }

  /** The environment a cached chunk is bound to. */
  datatype Env = Global | Request(id: nat)

  /** File names are only ever compared, so numbers stand for them; 0 is the empty name, "not configured". */
  type FileName = nat

  datatype Chunks = Chunks(init: FileName, pre: FileName, main: FileName, post: FileName)

  /** Whether a request's run calls this kind of chunk. */
  predicate Due(c: Chunks, first: bool, complete: bool, kind: Kind) {
    match kind
    case Init => first && c.init != 0
    case Pre => c.pre != 0
    case Main => !complete
    case Post => c.post != 0
  }

  function Rank(kind: Kind): nat {
    match kind case Init => 1 case Pre => 2 case Main => 3 case Post => 4
  }

  function File(c: Chunks, kind: Kind): FileName {
    match kind case Init => c.init case Pre => c.pre case Main => c.main case Post => c.post
  }

  /** The pre chunk completes the request: by a call of its own or by its result. */
  predicate Completed(c: Chunks, outcome: Kind -> Outcome) {
    c.pre != 0 && (Completes(outcome(Pre)) || ResultOf(outcome(Pre)) > 0)
  }

  // ---- which chunks a run calls, and when it succeeds ----

  /** The chunks a run should call, in order: init on the first run, pre, main unless complete, and always post. */
  function Plan(c: Chunks, first: bool, complete: bool): seq<Kind> {
    (if first && c.init != 0 then [Init] else []) + (if c.pre != 0 then [Pre] else [])
    + (if complete then [] else [Main]) + (if c.post != 0 then [Post] else [])
  }

  /** Which chunks a plan has, each at most once, and in which order. */
  lemma PlanHas(c: Chunks, first: bool, complete: bool)
    ensures var plan := Plan(c, first, complete);
      && (Init in plan <==> first && c.init != 0) && (Pre in plan <==> c.pre != 0)
      && (Main in plan <==> !complete) && (Post in plan <==> c.post != 0)
      && forall i, j :: 0 <= i < j < |plan| ==>
           plan[i] != plan[j] && plan[i] != Post && plan[j] != Init && !(plan[i] == Main && plan[j] == Pre)
  {
  }

  function Piece(c: Chunks, first: bool, complete: bool, kind: Kind): seq<Kind> {
    if Due(c, first, complete, kind) then [kind] else []
  }

  lemma PlanInPieces(c: Chunks, first: bool, complete: bool)
    ensures Plan(c, first, complete) == Piece(c, first, complete, Init) + (Piece(c, first, complete, Pre)
      + Piece(c, first, complete, Main)) + Piece(c, first, complete, Post)
  {
  }

  /** A chunk of a plan is cached, can be loaded, or is the same file as an earlier one. */
  ghost predicate Found(c: Chunks, plan: seq<Kind>, j: nat, cached: set<FileName>, loads: Kind -> bool)
    requires j < |plan|
  {
    || File(c, plan[j]) in cached || loads(plan[j])
    || exists i :: 0 <= i < j && File(c, plan[i]) == File(c, plan[j])
  }

  ghost predicate Works(c: Chunks, plan: seq<Kind>, j: nat, cached: set<FileName>, loads: Kind -> bool,
                        outcome: Kind -> Outcome)
    requires j < |plan|
  {
    Found(c, plan, j, cached, loads) && Fine(outcome(plan[j]))
  }

  ghost predicate AllWork(c: Chunks, plan: seq<Kind>, cached: set<FileName>, loads: Kind -> bool,
                          outcome: Kind -> Outcome)
  {
    forall j :: 0 <= j < |plan| ==> Works(c, plan, j, cached, loads, outcome)
  }

  /** The chunks before the first one that fails were called, and that one too if it was found; no other. */
  ghost predicate StoppedAt(ran: seq<Kind>, c: Chunks, plan: seq<Kind>, k: nat, cached: set<FileName>,
                            loads: Kind -> bool, outcome: Kind -> Outcome)
    requires k < |plan|
  {
    && (forall j :: 0 <= j < k ==> Works(c, plan, j, cached, loads, outcome))
    && !Works(c, plan, k, cached, loads, outcome)
    && ran == if Found(c, plan, k, cached, loads) then plan[..k + 1] else plan[..k]
  }

  /** Calling chunks one after the other until one fails: those called, and whether none failed. */
  ghost function Calls(c: Chunks, plan: seq<Kind>, cached: set<FileName>, loads: Kind -> bool,
                       outcome: Kind -> Outcome): (r: (seq<Kind>, bool))
  {
    if plan == [] then ([], true)
    else if !(loads(plan[0]) || File(c, plan[0]) in cached) then ([], false)
    else if !Fine(outcome(plan[0])) then ([plan[0]], false)
    else
      var (rest, ok) := Calls(c, plan[1..], cached + {File(c, plan[0])}, loads, outcome);
      ([plan[0]] + rest, ok)
  }

  lemma WorksLater(c: Chunks, plan: seq<Kind>, j: nat, cached: set<FileName>, loads: Kind -> bool,
                   outcome: Kind -> Outcome)
    requires 0 < j < |plan|
    ensures Found(c, plan, j, cached, loads) == Found(c, plan[1..], j - 1, cached + {File(c, plan[0])}, loads)
    ensures Works(c, plan, j, cached, loads, outcome)
         == Works(c, plan[1..], j - 1, cached + {File(c, plan[0])}, loads, outcome)
  {
    var rest := plan[1..];
    if i :| 0 <= i < j && File(c, plan[i]) == File(c, plan[j]) {
      if i > 0 { assert File(c, rest[i - 1]) == File(c, rest[j - 1]); }
    }
    if i :| 0 <= i < j - 1 && File(c, rest[i]) == File(c, rest[j - 1]) {
      assert File(c, plan[i + 1]) == File(c, plan[j]);
    }
  }

  /** The calls succeed exactly if every chunk works; else they end with the first one that does not. */
  lemma {:induction false} CallsExactly(c: Chunks, plan: seq<Kind>, cached: set<FileName>, loads: Kind -> bool,
                                        outcome: Kind -> Outcome)
    ensures var (ran, ok) := Calls(c, plan, cached, loads, outcome);
      && (ok <==> AllWork(c, plan, cached, loads, outcome)) && (ok ==> ran == plan)
      && (!ok ==> exists k :: 0 <= k < |plan| && StoppedAt(ran, c, plan, k, cached, loads, outcome))
  {
    if plan != [] {
      var cached' := cached + {File(c, plan[0])};
      var (ran, ok) := Calls(c, plan, cached, loads, outcome);
      if !Works(c, plan, 0, cached, loads, outcome) {
        assert StoppedAt(ran, c, plan, 0, cached, loads, outcome);
      } else {
        CallsExactly(c, plan[1..], cached', loads, outcome);
        forall j | 0 < j < |plan|
          ensures Works(c, plan, j, cached, loads, outcome) == Works(c, plan[1..], j - 1, cached', loads, outcome)
        {
          WorksLater(c, plan, j, cached, loads, outcome);
        }
        LaterStop(c, plan, cached, loads, outcome);
      }
    }
  }

  lemma LaterStop(c: Chunks, plan: seq<Kind>, cached: set<FileName>, loads: Kind -> bool, outcome: Kind -> Outcome)
    requires plan != [] && Works(c, plan, 0, cached, loads, outcome)
    ensures forall k, ran ::
      0 <= k < |plan| - 1 && StoppedAt(ran, c, plan[1..], k, cached + {File(c, plan[0])}, loads, outcome)
      ==> StoppedAt([plan[0]] + ran, c, plan, k + 1, cached, loads, outcome)
    ensures AllWork(c, plan[1..], cached + {File(c, plan[0])}, loads, outcome)
      ==> AllWork(c, plan, cached, loads, outcome)
  {
    var cached' := cached + {File(c, plan[0])};
    forall j | 0 < j < |plan|
      ensures Found(c, plan, j, cached, loads) == Found(c, plan[1..], j - 1, cached', loads)
      ensures Works(c, plan, j, cached, loads, outcome) == Works(c, plan[1..], j - 1, cached', loads, outcome)
    {
      WorksLater(c, plan, j, cached, loads, outcome);
    }
  }

  lemma OneCall(c: Chunks, kind: Kind, cached: set<FileName>, loads: Kind -> bool, outcome: Kind -> Outcome)
    ensures Calls(c, [kind], cached, loads, outcome) ==
      if loads(kind) || File(c, kind) in cached then ([kind], Fine(outcome(kind))) else ([], false)
    ensures Calls(c, [], cached, loads, outcome) == ([], true)
    ensures Files(c, [kind]) == {File(c, kind)} && Files(c, []) == {}
  {
    assert [kind][1..] == [] && [kind] + [] == [kind];
    assert Calls(c, [], cached + {File(c, kind)}, loads, outcome) == ([], true);
  }

  ghost function Files(c: Chunks, plan: seq<Kind>): set<FileName> {
    set k | k in plan :: File(c, k)
  }

  /** The files of the chunks that a run calls. */
  ghost function Configured(c: Chunks, first: bool, complete: bool): set<FileName> {
    (if first && c.init != 0 then {c.init} else {}) + (if c.pre != 0 then {c.pre} else {})
    + (if complete then {} else {c.main}) + (if c.post != 0 then {c.post} else {})
  }

  lemma FilesOfPlan(c: Chunks, first: bool, complete: bool)
    ensures Files(c, Plan(c, first, complete)) == Configured(c, first, complete)
  {
    PlanHas(c, first, complete);
    hide Plan;
  }

  /** Two plans one after the other. */
  lemma {:induction false} CallsInPieces(c: Chunks, a: seq<Kind>, b: seq<Kind>, cached: set<FileName>,
                                         loads: Kind -> bool, outcome: Kind -> Outcome)
    ensures var (ran, ok) := Calls(c, a, cached, loads, outcome);
      var (ran', ok') := Calls(c, b, cached + Files(c, a), loads, outcome);
      Calls(c, a + b, cached, loads, outcome) == if ok then (ran + ran', ok') else (ran, false)
  {
    if a == [] {
      assert a + b == b && cached + Files(c, a) == cached;
      var ran' := Calls(c, b, cached, loads, outcome).0;
      assert [] + ran' == ran';
    } else {
      var cached' := cached + {File(c, a[0])};
      assert (a + b)[1..] == a[1..] + b;
      assert cached + Files(c, a) == cached' + Files(c, a[1..]) by {
        assert a == [a[0]] + a[1..];
        assert forall k :: k in a <==> k == a[0] || k in a[1..];
        hide File;
      }
      CallsInPieces(c, a[1..], b, cached', loads, outcome);
      var ran, ran' := Calls(c, a[1..], cached', loads, outcome).0, Calls(c, b, cached + Files(c, a), loads, outcome).0;
      assert [a[0]] + (ran + ran') == ([a[0]] + ran) + ran';
    }
  }

  /** What has been called in a run and is cached, before and after some more chunks of its plan. */
  ghost predicate Called(c: Chunks, plan: seq<Kind>, loads: Kind -> bool, outcome: Kind -> Outcome, ran: seq<Kind>,
                         cached: set<FileName>, ran': seq<Kind>, cached': set<FileName>, ok: bool)
  {
    var (called, all) := Calls(c, plan, cached, loads, outcome);
    ran' == ran + called && ok == all && (ok ==> cached' == cached + Files(c, plan))
  }

  /** Chunks called one after the other are those of the plans one after the other. */
  lemma CalledMore(c: Chunks, a: seq<Kind>, b: seq<Kind>, loads: Kind -> bool, outcome: Kind -> Outcome, ran: seq<Kind>,
                   cached: set<FileName>, ran': seq<Kind>, cached': set<FileName>, ran'': seq<Kind>,
                   cached'': set<FileName>, ok: bool)
    requires Called(c, a, loads, outcome, ran, cached, ran', cached', true)
    requires Called(c, b, loads, outcome, ran', cached', ran'', cached'', ok)
    ensures Called(c, a + b, loads, outcome, ran, cached, ran'', cached'', ok)
  {
    CallsInPieces(c, a, b, cached, loads, outcome);
    assert Files(c, a + b) == Files(c, a) + Files(c, b);
    hide Calls, Files;
  }

  lemma CalledNoMore(c: Chunks, a: seq<Kind>, b: seq<Kind>, loads: Kind -> bool, outcome: Kind -> Outcome,
                     ran: seq<Kind>, cached: set<FileName>, ran': seq<Kind>, cached': set<FileName>)
    requires Called(c, a, loads, outcome, ran, cached, ran', cached', false)
    ensures Called(c, a + b, loads, outcome, ran, cached, ran', cached', false)
  {
    CallsInPieces(c, a, b, cached, loads, outcome);
    hide Calls, Files;
  }

  lemma CalledNone(c: Chunks, loads: Kind -> bool, outcome: Kind -> Outcome, ran: seq<Kind>, cached: set<FileName>)
    ensures Called(c, [], loads, outcome, ran, cached, ran, cached, true)
  {
    assert ran + [] == ran;
  }

  class LuaState {
    var requestCount: nat
    var timeMax: nat
    var timeout: nat
    var timerSet: bool
    var timedout: bool
    var deadline: nat
    var inUse: bool
    var init: bool
    var close: bool
    var memoryUsed: nat
    var memoryMonitor: nat
    var chunks: map<FileName, Env>
    ghost var created: nat    // when the state was made
    ghost var released: nat   // when it last became idle
    ghost var given: nat   // requests it was given
    ghost var initRuns: nat
    ghost var served: nat     // runs that ended without an error
    ghost var ran: seq<Kind>  // chunks called by the present run

    constructor ()
      ensures !inUse && !init && !close && !timerSet && !timedout
      ensures requestCount == given == memoryMonitor == memoryUsed == 0
      ensures timeMax == timeout == INFINITE && served == 0 && forall c :: Ready(c)
    {
      requestCount, timeMax, timeout, deadline := 0, INFINITE, INFINITE, 0;
      timerSet, timedout, inUse, init, close := false, false, false, false, false;
      memoryUsed, memoryMonitor, chunks, initRuns, served, ran := 0, 0, map[], 0, 0, [];
      created, released, given := 0, 0, 0;
    }

    /** Rearm the timer for the nearer of the two limits (lws_set_state_timer). */
    method SetTimer(now: nat)
      requires timeMax < WORD && timeout < WORD
      modifies this`timerSet, this`deadline
      ensures TimerMatches()
    {
      timerSet := false;
      if timeMax != INFINITE || timeout != INFINITE {
        var next := if timeout < timeMax then timeout else timeMax;
        deadline := Wrap(now + Wrap(next - now));
        timerSet := true;
      }
    }

    /** The timer is armed exactly if a limit is set, and for the nearer one. */
    ghost predicate TimerMatches()
      reads this`timerSet, this`deadline, this`timeMax, this`timeout
    {
      && (timerSet <==> timeMax != INFINITE || timeout != INFINITE)
      && (timerSet ==> deadline == if timeout < timeMax then timeout else timeMax)
    }

    /** Fit to serve a request: init has run exactly once if a run has been completed, and no cached chunk is bound. */
    ghost predicate Ready(c: Chunks)
      reads this`init, this`initRuns, this`served, this`chunks
    {
      (init <==> served > 0) && initRuns == (if init && c.init != 0 then 1 else 0) && Unbound()
    }

    /** Part way through a run, only chunks of the run can be bound to the request. */
    ghost predicate BoundUpto(c: Chunks, complete: bool, rank: nat)
      reads this`chunks
    {
      forall file :: file in chunks && chunks[file] != Global ==>
        || (rank >= 2 && c.pre != 0 && file == c.pre)
        || (rank >= 3 && !complete && file == c.main)
        || (rank >= 4 && c.post != 0 && file == c.post)
    }

    /** No cached chunk is bound to a request. */
    predicate Unbound()
      reads this`chunks
    {
      forall file :: file in chunks ==> chunks[file] == Global
    }

    /** Get or load a chunk, bind it, call it. None stands for a Lua error. */
    method Call(c: Chunks, kind: Kind, request: nat, loads: bool, outcome: Outcome)
      returns (result: Option<nat>, complete: bool)
      modifies this`chunks, this`ran, this`initRuns
      ensures var called := loads || File(c, kind) in old(chunks);
        && (result.Some? <==> called && Fine(outcome))
        && ran == (if called then old(ran) + [kind] else old(ran))
        && initRuns == old(initRuns) + (if called && kind == Init then 1 else 0)
        && chunks == if !called then old(chunks)
                     else old(chunks)[File(c, kind) := if kind == Init then Global else Request(request)]
      ensures result.Some? ==> result.value == if outcome.ReturnsInteger? then ToInt(outcome.value) else 0
      ensures complete <==> result.Some? && kind == Pre && (result.value > 0 || outcome.completes)
      // only nil and integers that are not negative are results
      ensures (loads || File(c, kind) in old(chunks)) && outcome.ReturnsNil? ==> result == Some(0)
      ensures (loads || File(c, kind) in old(chunks)) && outcome.ReturnsInteger? && 0 <= outcome.value < 0x8000_0000 ==>
        result == Some(outcome.value)
      ensures outcome.ReturnsInteger? && -0x8000_0000 <= outcome.value < 0 ==> result.None?
      ensures outcome.Raises? || outcome.ReturnsOther? ==> result.None?
    {
      var file := File(c, kind);
      if file !in chunks {
        if !loads {
          return None, false;
        }
        chunks := chunks[file := Global];
      }
      chunks := chunks[file := if kind == Init then Global else Request(request)];
      ran := ran + [kind];
      if kind == Init { initRuns := initRuns + 1; }
      match outcome
      case Raises => return None, false;
      case ReturnsOther => return None, false;
      case ReturnsNil(completes) => return Some(0), kind == Pre && completes;
      case ReturnsInteger(value, completes) =>
        var r := ToInt(value);
        if r < 0 {
          return None, false;
        }
        return Some(r), kind == Pre && (completes || r > 0);
    }

    method ClearEnv(file: FileName)
      modifies this`chunks
      ensures chunks == if file in old(chunks) then old(chunks)[file := Global] else old(chunks)
    {
      if file in chunks {
        chunks := chunks[file := Global];
      }
    }

    /** Call the chunk of one kind if it is due. */
    method Stage(c: Chunks, kind: Kind, first: bool, skip: bool, request: nat, loads: Kind -> bool,
                 outcome: Kind -> Outcome)
      returns (ok: bool, result: nat, complete: bool)
      requires BoundUpto(c, skip, Rank(kind) - 1) && (skip ==> Rank(kind) > 2)
      modifies this`chunks, this`ran, this`initRuns
      ensures Called(c, Piece(c, first, skip, kind), loads, outcome, old(ran), old(chunks).Keys, ran, chunks.Keys, ok)
      ensures initRuns == old(initRuns) + if kind == Init && ran != old(ran) then 1 else 0
      ensures ok ==> ran == old(ran) + Piece(c, first, skip, kind) && BoundUpto(c, skip || complete, Rank(kind))
      ensures ok && Due(c, first, skip, kind) ==> result == ResultOf(outcome(kind))
      ensures complete <==> ok && kind == Pre && c.pre != 0 && (result > 0 || Completes(outcome(kind)))
    {
      hide Calls, Files, ToInt;
      OneCall(c, kind, chunks.Keys, loads, outcome);
      ok, result, complete := true, 0, false;
      if Due(c, first, skip, kind) {
        var r;
        r, complete := Call(c, kind, request, loads(kind), outcome(kind));
        ok := r.Some?;
        if ok { result := r.value; }
      }
    }

    /** The pre chunk and, unless that completes the request, the main chunk. */
    method PreAndMain(c: Chunks, first: bool, request: nat, loads: Kind -> bool, outcome: Kind -> Outcome)
      returns (ok: bool, value: nat, complete: bool)
      requires BoundUpto(c, false, 1)
      modifies this`chunks, this`ran, this`initRuns
      ensures var plan := Piece(c, first, false, Pre) + Piece(c, first, Completed(c, outcome), Main);
              Called(c, plan, loads, outcome, old(ran), old(chunks).Keys, ran, chunks.Keys, ok)
      ensures initRuns == old(initRuns) && (!ok ==> !complete)
      ensures ok ==> BoundUpto(c, complete, 3) && complete == Completed(c, outcome)
      ensures ok ==> value == ResultOf(outcome(if complete then Pre else Main))
    {
      hide Called, ToInt, ResultOf, Completes;
      ghost var ran0, cached0 := ran, chunks.Keys;
      ghost var pre := Piece(c, first, false, Pre);
      ghost var main := Piece(c, first, Completed(c, outcome), Main);
      ok, value, complete := Stage(c, Pre, first, false, request, loads, outcome);
      if !ok {
        CalledNoMore(c, pre, main, loads, outcome, ran0, cached0, ran, chunks.Keys);
        return;
      }
      ghost var ran1, cached1 := ran, chunks.Keys;
      if !complete {
        var ignored;
        ok, value, ignored := Stage(c, Main, first, false, request, loads, outcome);
      } else {
        CalledNone(c, loads, outcome, ran1, cached1);
      }
      CalledMore(c, pre, main, loads, outcome, ran0, cached0, ran1, cached1, ran, chunks.Keys, ok);
    }

    /** Call the chunks of a request: init once per state, then pre, main unless complete, post. */
    method CallAll(c: Chunks, request: nat, loads: Kind -> bool, outcome: Kind -> Outcome)
      returns (ok: bool, value: nat, complete: bool)
      requires Ready(c)
      modifies this`chunks, this`ran, this`initRuns, this`init
      ensures var plan := Plan(c, !old(init), Completed(c, outcome));
              Called(c, plan, loads, outcome, [], old(chunks).Keys, ran, chunks.Keys, ok)
      ensures ok ==> BoundUpto(c, complete, 4) && init && complete == Completed(c, outcome)
      ensures ok ==> initRuns == if c.init != 0 then 1 else 0
      ensures ok ==> value == ResultOf(outcome(if complete then Pre else Main))
    {
      hide Called, ToInt, ResultOf, Completes;
      var first := !init;
      ghost var cached0 := chunks.Keys;
      ghost var done := Completed(c, outcome);
      ghost var one, post := Piece(c, first, done, Init), Piece(c, first, done, Post);
      ghost var two := Piece(c, first, done, Pre) + Piece(c, first, done, Main);
      PlanInPieces(c, first, done);
      ran := [];
      var ignored, rest;
      ok, value, ignored := Stage(c, Init, first, false, request, loads, outcome);
      ghost var ran1, cached1 := ran, chunks.Keys;
      if !ok {
        CalledNoMore(c, one, two, loads, outcome, [], cached0, ran1, cached1);
        CalledNoMore(c, one + two, post, loads, outcome, [], cached0, ran1, cached1);
        return ok, value, false;
      }
      init := true;
      ok, value, complete := PreAndMain(c, first, request, loads, outcome);
      ghost var ran2, cached2 := ran, chunks.Keys;
      CalledMore(c, one, two, loads, outcome, [], cached0, ran1, cached1, ran2, cached2, ok);
      if !ok {
        CalledNoMore(c, one + two, post, loads, outcome, [], cached0, ran2, cached2);
        return;
      }
      ok, rest, ignored := Stage(c, Post, first, complete, request, loads, outcome);
      CalledMore(c, one + two, post, loads, outcome, [], cached0, ran2, cached2, ran, chunks.Keys, ok);
    }

    /** Run a request; at its end the environments are cleared. */
    method Run(c: Chunks, request: nat, loads: Kind -> bool, outcome: Kind -> Outcome)
      returns (result: Option<nat>, complete: bool)
      requires Ready(c)
      modifies this`chunks, this`ran, this`initRuns, this`init, this`served
      // a run succeeds exactly if every chunk of it can be had and goes well, else it ends with the first that does not
      ensures var plan, cached := Plan(c, !old(init), Completed(c, outcome)), old(chunks).Keys;
        && (result.Some? <==> AllWork(c, plan, cached, loads, outcome))
        && (result.Some? ==> ran == plan)
        && (result.None? ==> exists k :: 0 <= k < |plan| && StoppedAt(ran, c, plan, k, cached, loads, outcome))
      // and then it has cached the files configured for its chunks
      ensures result.Some? ==> chunks.Keys == old(chunks).Keys + Configured(c, !old(init), complete)
      ensures served == old(served) + if result.Some? then 1 else 0
      ensures result.Some? ==> Ready(c) && init && complete == Completed(c, outcome)
      ensures result.Some? ==> result.value == ResultOf(outcome(if complete then Pre else Main))
    {
      hide Calls, Files, Configured, ToInt, ResultOf, Completes, AllWork, StoppedAt, Plan;
      ghost var plan := Plan(c, !init, Completed(c, outcome));
      CallsExactly(c, plan, chunks.Keys, loads, outcome);
      FilesOfPlan(c, !init, Completed(c, outcome));
      assert [] + Calls(c, plan, chunks.Keys, loads, outcome).0 == Calls(c, plan, chunks.Keys, loads, outcome).0;
      var ok, value;
      ok, value, complete := CallAll(c, request, loads, outcome);
      if !ok {
        return None, complete;
      }
      ClearEnvs(c, complete);
      served := served + 1;
      return Some(value), complete;
    }

    /** Unbind the chunks of the request just served. */
    method ClearEnvs(c: Chunks, complete: bool)
      modifies this`chunks
      ensures chunks.Keys == old(chunks).Keys
      ensures forall f :: f in chunks ==>
        chunks[f] == if (c.pre != 0 && f == c.pre) || (!complete && f == c.main) || (c.post != 0 && f == c.post)
                     then Global else old(chunks)[f]
    {
      if c.pre != 0 {
        ClearEnv(c.pre);
      }
      if !complete {
        ClearEnv(c.main);
      }
      if c.post != 0 {
        ClearEnv(c.post);
      }
    }
  }
}
