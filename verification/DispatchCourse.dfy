/** The exact calls of a request, told from what each call did: which call follows which, and when the
    End action is called. */
module DispatchCourse {
  import opened Basics
  import opened ChainedRouting
  import opened DispatchPlan

  /** A request to be dispatched; `held` when a hook holds it back before. */
  datatype Request = Request(oracle: Oracle, plan: Plan, args: seq<string>, held: bool) {
    function Body(): seq<Call> {
      BodyCalls(plan, args)
    }

    /** Something has held a reference before the n-th call. */
    ghost predicate Suspended(n: nat) {
      held || exists k :: 0 <= k < n && oracle(k).refs > 0
    }

    /** The n-th call leads on to the next. A call that detaches the request never does. One that fails
        does if it holds a reference in a request that was suspended before, but not out of a chain. */
    ghost predicate LeadsOn(n: nat) {
      var out := oracle(n);
      && !out.detach
      && (out.ret || (out.refs > 0 && Suspended(n) && (n < |plan.beginAuto| || plan.main.Single?)))
    }

    /** When nothing else is called after the n-th call, End is: unless the request is detached, or was
        suspended before and the call failed and holds no reference. */
    ghost predicate LeadsToEnd(n: nat) {
      var out := oracle(n);
      !out.detach && (out.ret || out.refs > 0 || !Suspended(n))
    }

    /** The arguments of the moment after m calls. */
    function ArgsAfter(m: nat): seq<string> {
      if 0 < m <= |Body()| then Body()[m - 1].args else args
    }

    /** The call of End after m calls, with the arguments of the call before it. */
    ghost function EndAfter(m: nat): seq<Call> {
      if plan.end.Some? && (m == 0 || LeadsToEnd(m - 1)) then [Call(plan.end.value, ArgsAfter(m))] else []
    }

    /** The calls made are the first m of the body: up to the first that does not lead on, or all. */
    ghost predicate Stops(m: nat) {
      && m <= |Body()|
      && (forall k :: 0 <= k < m - 1 ==> LeadsOn(k))
      && (m < |Body()| ==> m > 0 && !LeadsOn(m - 1))
    }

    ghost predicate Course(log: seq<Call>) {
      exists m: nat :: Stops(m) && log == Body()[..m] + EndAfter(m)
    }

    /** After m calls, none of which but the last may fail to lead on. */
    ghost predicate Stands(s: Work, m: nat) {
      && m <= |Body()| && s.log == Body()[..m]
      && (forall k :: 0 <= k < m - 1 ==> LeadsOn(k))
      && (s.detached <==> m > 0 && oracle(m - 1).detach)
    }

    /** Everything up to now has led on, and `rest` is still to be called. */
    ghost predicate Running(s: Work, rest: seq<Call>) {
      Stands(s, |s.log|) && s.log + rest == Body() && forall k :: 0 <= k < |s.log| ==> LeadsOn(k)
    }
  }

  /** Which calls are made is determined. */
  lemma OneCourse(q: Request, log: seq<Call>, log': seq<Call>)
    requires q.Course(log) && q.Course(log')
    ensures log == log'
  {
    var m: nat :| q.Stops(m) && log == q.Body()[..m] + q.EndAfter(m);
    var m': nat :| q.Stops(m') && log' == q.Body()[..m'] + q.EndAfter(m');
    NoLater(q, m, m');
    NoLater(q, m', m);
  }

  lemma NoLater(q: Request, m: nat, m': nat)
    requires q.Stops(m) && q.Stops(m')
    ensures m >= m'
  {
    var on := m > 0 && q.LeadsOn(m - 1);
  }

  /** Whatever the actions return, wherever they suspend and whatever they detach: the request takes just
      this course. */
  lemma CourseOfRun(q: Request)
    ensures q.Course(RunRequest(q.oracle, q.plan, q.args, q.held).log)
  {
    var s := Work([], 0, 0, q.args, false);
    assert [] + q.Body() == q.Body();
    if q.held {
      ResumedActions(q, s, q.plan.beginAuto);
    } else {
      FirstActions(q, s, q.plan.beginAuto);
    }
  }

  /** When every call succeeds everything is called once: the body, then End. */
  lemma AllSucceedRunsAll(q: Request)
    requires forall n :: Succeeds(q.oracle(n))
    ensures RunRequest(q.oracle, q.plan, q.args, q.held).log
            == q.Body() + if q.plan.end.Some? then [Call(q.plan.end.value, q.args)] else []
  {
    CourseOfRun(q);
    var log := RunRequest(q.oracle, q.plan, q.args, q.held).log;
    var m: nat :| q.Stops(m) && log == q.Body()[..m] + q.EndAfter(m);
    if m > 0 {
      assert Succeeds(q.oracle(m - 1));
    }
    assert m == |q.Body()| && q.Body()[..m] == q.Body();
    LastArgs(q.plan, q.args);
  }

  predicate Succeeds(out: Outcome) {
    out.ret && !out.detach
  }

  // ----- One step -------------------------------------------------------------------------------

  /** A detached request calls nothing more. */
  lemma {:induction false} DetachedQueue(o: Oracle, s: Work, pending: seq<Component>, captures: seq<string>)
    requires s.detached
    ensures RunResumed(o, s, pending, captures).log == s.log
    decreases |pending|
  {
    if pending != [] {
      match pending[0]
      case Single(_) =>
      case Chain(chain) =>
        if s.ix < |chain| {
          ChainStep(o, s, chain, captures, s.args);
        } else {
          DetachedQueue(o, s, pending[1..], captures);
        }
    }
  }

  lemma DetachedFirst(q: Request, s: Work, actions: seq<Action>)
    requires s.detached
    ensures RunBegin(q.oracle, s, actions, q.plan).log == s.log
  {
    var p := q.plan;
    match p.main
    case Single(_) =>
    case Chain(chain) => FirstLinksStep(q.oracle, s, chain, s.args, p);
  }

  lemma DetachedLinks(q: Request, s: Work, chain: seq<Action>, finalArgs: seq<string>)
    requires s.detached
    ensures RunFirstLinks(q.oracle, s, chain, finalArgs, q.plan).log == s.log
  {
    FirstLinksStep(q.oracle, s, chain, finalArgs, q.plan);
  }

  /** The call whose turn it is has been made. */
  lemma Called(q: Request, s: Work, call: Call, rest: seq<Call>, s': Work)
    requires q.Running(s, [call] + rest) && !s.detached
    requires s'.log == s.log + [call] && s'.detached == q.oracle(|s.log|).detach
    ensures q.Stands(s', |s'.log|) && s'.log + rest == q.Body() && call.args == q.ArgsAfter(|s'.log|)
    ensures q.LeadsOn(|s.log|) ==> q.Running(s', rest) && !s'.detached
  {
    Shift(s.log, call, rest);
    assert q.Body()[|s.log|] == call;
  }

  /** The end of the body, or of what is called of it. */
  lemma Ended(q: Request, s: Work)
    requires q.Stands(s, |s.log|) && q.Stops(|s.log|) && s.args == q.ArgsAfter(|s.log|)
    ensures |s.log| > 0 && !q.LeadsToEnd(|s.log| - 1) ==> q.Course(s.log)
    ensures |s.log| == 0 || q.LeadsToEnd(|s.log| - 1) || s.detached ==>
              && q.Course(RunEnd(q.oracle, s, q.plan).log)
              && q.Course(RunResumed(q.oracle, s, EndList(q.plan), q.plan.captures).log)
  {
    var m, p := |s.log|, q.plan;
    assert q.Body()[..m] + [] == q.Body()[..m];
    if p.end.Some? {
      ResumeStep(q.oracle, s, Single(p.end.value), [], p.captures);
      assert [Single(p.end.value)] + [] == EndList(p);
    }
    if m == 0 || q.LeadsToEnd(m - 1) {
      assert RunEnd(q.oracle, s, p).log == q.Body()[..m] + q.EndAfter(m);
      assert RunResumed(q.oracle, s, EndList(p), p.captures).log == q.Body()[..m] + q.EndAfter(m);
    } else {
      assert s.log == q.Body()[..m] + q.EndAfter(m);
      assert s.detached ==> RunEnd(q.oracle, s, p).log == s.log;
      assert s.detached ==> RunResumed(q.oracle, s, EndList(p), p.captures).log == s.log;
    }
  }

  lemma NothingMore(calls: seq<Call>)
    ensures calls + [] == calls
  {
  }

  // ----- While nothing has suspended the request ------------------------------------------------

  lemma {:induction false} FirstActions(q: Request, s: Work, actions: seq<Action>)
    requires !s.detached && s.args == q.args == q.ArgsAfter(|s.log|) && s.ix == 0 && s.captured == 0
    requires !q.Suspended(|s.log|)
    requires q.Running(s, Calls(actions, s.args) + ComponentCalls(q.plan.main, q.plan.captures, s.args))
    requires |s.log| + |actions| == |q.plan.beginAuto|
    ensures q.Course(RunBegin(q.oracle, s, actions, q.plan).log)
    decreases |actions|
  {
    hide RunResumed, RunEnd, BodyCalls, RunBegin, ComponentCalls;
    var p := q.plan;
    var main := ComponentCalls(p.main, p.captures, s.args);
    if actions == [] {
      FirstMain(q, s);
    } else {
      var r := RunAction(q.oracle, s, actions[0]);
      var tail := Singles(actions[1..]) + ([p.main] + EndList(p));
      BeginStep(q.oracle, s, actions, p);
      CallsStep(actions, s.args, main);
      Called(q, s, Call(actions[0], s.args), Calls(actions[1..], s.args) + main, r.work);
      if q.LeadsOn(|s.log|) {
        if r.refs > 0 {
          ResumedActions(q, r.work, actions[1..]);
        } else {
          FirstActions(q, r.work, actions[1..]);
        }
      } else {
        Ended(q, r.work);
        if r.work.detached {
          DetachedFirst(q, r.work, actions[1..]);
          DetachedQueue(q.oracle, r.work, tail, p.captures);
        }
      }
    }
  }

  lemma FirstMain(q: Request, s: Work)
    requires !s.detached && s.args == q.args == q.ArgsAfter(|s.log|) && s.ix == 0 && s.captured == 0
    requires !q.Suspended(|s.log|)
    requires q.Running(s, [] + ComponentCalls(q.plan.main, q.plan.captures, s.args))
    requires |s.log| == |q.plan.beginAuto|
    ensures q.Course(RunBegin(q.oracle, s, [], q.plan).log)
  {
    hide RunResumed, RunEnd, BodyCalls;
    var p := q.plan;
    NothingBefore(ComponentCalls(p.main, p.captures, s.args));
    match p.main
    case Single(a) =>
      MainStep(q.oracle, s, p);
      NothingMore([Call(a, s.args)]);
      Called(q, s, Call(a, s.args), [], RunAction(q.oracle, s, a).work);
      Ended(q, RunAction(q.oracle, s, a).work);
    case Chain(chain) => FirstLinks(q, s, chain, s.args);
  }

  lemma NothingBefore(calls: seq<Call>)
    ensures [] + calls == calls
  {
  }

  lemma {:induction false} FirstLinks(q: Request, s: Work, chain: seq<Action>, finalArgs: seq<string>)
    requires !s.detached && q.plan.main == Chain(chain) && !q.Suspended(|s.log|)
    requires q.Running(s, ChainCalls(chain, s.ix, s.captured, q.plan.captures, finalArgs))
    requires |s.log| >= |q.plan.beginAuto| && (s.ix >= |chain| ==> s.args == q.ArgsAfter(|s.log|) == finalArgs)
    ensures q.Course(RunFirstLinks(q.oracle, s, chain, finalArgs, q.plan).log)
    decreases |chain| - s.ix
  {
    hide RunLink, ChainCalls, RunResumed, RunEnd, RunFirstLinks, BodyCalls;
    var o, p := q.oracle, q.plan;
    FirstLinksStep(o, s, chain, finalArgs, p);
    if s.ix >= |chain| {
      ChainCallsEnd(chain, s.ix, s.captured, p.captures, finalArgs);
      Ended(q, s);
    } else {
      var r := RunLink(o, s, chain, p.captures, finalArgs);
      var s' := r.work.(ix := s.ix + 1);
      LinkCall(o, s, chain, p.captures, finalArgs);
      Called(q, s, Call(chain[s.ix], r.work.args),
             ChainCalls(chain, s.ix + 1, r.work.captured, p.captures, finalArgs), r.work);
      if q.LeadsOn(|s.log|) {
        if r.refs > 0 {
          ResumedLinks(q, s'.(args := finalArgs), chain);
        } else {
          FirstLinks(q, s', chain, finalArgs);
        }
      } else {
        Ended(q, r.work);
        if r.work.detached {
          DetachedLinks(q, s', chain, finalArgs);
          DetachedQueue(o, s'.(args := finalArgs), [Chain(chain)] + EndList(p), p.captures);
        }
      }
    }
  }

  // ----- Once it has been suspended -------------------------------------------------------------

  lemma {:induction false} ResumedActions(q: Request, s: Work, actions: seq<Action>)
    requires !s.detached && s.args == q.args == q.ArgsAfter(|s.log|) && s.ix == 0 && s.captured == 0
    requires q.Suspended(|s.log|)
    requires q.Running(s, Calls(actions, s.args) + ComponentCalls(q.plan.main, q.plan.captures, s.args))
    requires |s.log| + |actions| == |q.plan.beginAuto|
    ensures var queue := Singles(actions) + ([q.plan.main] + EndList(q.plan));
            q.Course(RunResumed(q.oracle, s, queue, q.plan.captures).log)
    decreases |actions|
  {
    hide RunResumed, RunEnd, BodyCalls, ComponentCalls;
    var p := q.plan;
    var main := ComponentCalls(p.main, p.captures, s.args);
    if actions == [] {
      NoQueue([p.main] + EndList(p));
      ResumedMain(q, s);
    } else {
      var r := RunAction(q.oracle, s, actions[0]);
      var tail := Singles(actions[1..]) + ([p.main] + EndList(p));
      SinglesStep(actions, [p.main] + EndList(p));
      ResumeStep(q.oracle, s, Single(actions[0]), tail, p.captures);
      CallsStep(actions, s.args, main);
      Called(q, s, Call(actions[0], s.args), Calls(actions[1..], s.args) + main, r.work);
      if q.LeadsOn(|s.log|) {
        ResumedActions(q, r.work, actions[1..]);
      } else {
        Ended(q, r.work);
        if r.work.detached {
          DetachedQueue(q.oracle, r.work, tail, p.captures);
        }
      }
    }
  }

  lemma ResumedMain(q: Request, s: Work)
    requires !s.detached && s.args == q.args == q.ArgsAfter(|s.log|) && s.ix == 0 && s.captured == 0
    requires q.Suspended(|s.log|)
    requires q.Running(s, [] + ComponentCalls(q.plan.main, q.plan.captures, s.args))
    requires |s.log| == |q.plan.beginAuto|
    ensures q.Course(RunResumed(q.oracle, s, [q.plan.main] + EndList(q.plan), q.plan.captures).log)
  {
    hide RunResumed, RunEnd, BodyCalls, EndList;
    var p := q.plan;
    NothingBefore(ComponentCalls(p.main, p.captures, s.args));
    match p.main
    case Single(a) =>
      NothingMore([Call(a, s.args)]);
      ResumedSingle(q, s, a);
    case Chain(chain) => ResumedLinks(q, s, chain);
  }

  lemma ResumedSingle(q: Request, s: Work, a: Action)
    requires !s.detached && q.Suspended(|s.log|) && q.Running(s, [Call(a, s.args)] + []) && q.plan.main == Single(a)
    ensures q.Course(RunResumed(q.oracle, s, [Single(a)] + EndList(q.plan), q.plan.captures).log)
  {
    hide RunResumed, RunEnd, BodyCalls, EndList;
    ResumeStep(q.oracle, s, Single(a), EndList(q.plan), q.plan.captures);
    Called(q, s, Call(a, s.args), [], RunAction(q.oracle, s, a).work);
    Ended(q, RunAction(q.oracle, s, a).work);
  }

  lemma ResumedLinks(q: Request, s: Work, chain: seq<Action>)
    requires !s.detached && q.plan.main == Chain(chain) && q.Suspended(|s.log|)
    requires q.Running(s, ChainCalls(chain, s.ix, s.captured, q.plan.captures, s.args))
    requires |s.log| >= |q.plan.beginAuto| && (s.ix >= |chain| ==> s.args == q.ArgsAfter(|s.log|))
    ensures q.Course(RunResumed(q.oracle, s, [Chain(chain)] + EndList(q.plan), q.plan.captures).log)
  {
    hide RunResumed, BodyCalls;
    ResumeStep(q.oracle, s, Chain(chain), EndList(q.plan), q.plan.captures);
    ChainRest(q, s, chain, s.args);
  }

  /** What follows the rest of a chain. */
  lemma {:induction false} ChainRest(q: Request, s: Work, chain: seq<Action>, finalArgs: seq<string>)
    requires !s.detached && q.plan.main == Chain(chain) && q.Suspended(|s.log|)
    requires q.Running(s, ChainCalls(chain, s.ix, s.captured, q.plan.captures, finalArgs))
    requires |s.log| >= |q.plan.beginAuto| && (s.ix >= |chain| ==> s.args == q.ArgsAfter(|s.log|) == finalArgs)
    ensures var r := RunChain(q.oracle, s, chain, q.plan.captures, finalArgs);
            q.Course(if !r.ret && r.refs == 0 then r.work.log
                     else RunResumed(q.oracle, r.work, EndList(q.plan), q.plan.captures).log)
    decreases |chain| - s.ix
  {
    hide RunLink, ChainCalls, RunResumed, RunEnd, RunChain, BodyCalls;
    var o, p := q.oracle, q.plan;
    if s.ix >= |chain| {
      RunChainDone(o, s, chain, p.captures, finalArgs);
      ChainCallsEnd(chain, s.ix, s.captured, p.captures, finalArgs);
      assert |s.log| > 0 ==> q.LeadsOn(|s.log| - 1);
      Ended(q, s);
    } else {
      var r := RunLink(o, s, chain, p.captures, finalArgs);
      var s' := r.work.(ix := s.ix + 1);
      LinkCall(o, s, chain, p.captures, finalArgs);
      ChainStep(o, s, chain, p.captures, finalArgs);
      Called(q, s, Call(chain[s.ix], r.work.args),
             ChainCalls(chain, s.ix + 1, r.work.captured, p.captures, finalArgs), r.work);
      if q.LeadsOn(|s.log|) {
        RunChainDone(o, s', chain, p.captures, finalArgs);
        ChainRest(q, s', chain, finalArgs);
      } else {
        Ended(q, r.work);
        if r.work.detached {
          DetachedQueue(o, r.work, EndList(p), p.captures);
          DetachedQueue(o, s', EndList(p), p.captures);
          DetachedChain(o, s', chain, p.captures, finalArgs);
        }
      }
    }
  }

  lemma DetachedChain(o: Oracle, s: Work, chain: seq<Action>, captures: seq<string>, finalArgs: seq<string>)
    requires s.detached
    ensures s.ix < |chain| ==>
              var r := RunChain(o, s, chain, captures, finalArgs);
              !r.ret && r.refs == 0 && r.work.log == s.log
  {
  }

  // ----- The last call of the body --------------------------------------------------------------

  lemma LastArgs(p: Plan, args: seq<string>)
    ensures var body := BodyCalls(p, args); body == [] || body[|body| - 1].args == args
  {
    CallsArgs(p.beginAuto, args);
    if p.main.Chain? {
      ChainArgs(p.main.chain, 0, 0, p.captures, args);
    }
  }

  lemma {:induction false} CallsArgs(actions: seq<Action>, args: seq<string>)
    ensures forall c <- Calls(actions, args) :: c.args == args
  {
    if actions != [] {
      CallsArgs(actions[1..], args);
    }
  }

  lemma {:induction false} ChainArgs(chain: seq<Action>, ix: nat, captured: nat, captures: seq<string>,
                                     finalArgs: seq<string>)
    ensures var calls := ChainCalls(chain, ix, captured, captures, finalArgs);
            calls == [] || calls[|calls| - 1].args == finalArgs
    decreases |chain| - ix
  {
    hide Grab;
    if ix < |chain| {
      ChainArgs(chain, ix + 1, captured + |Grab(chain[ix], captured, captures)|, captures, finalArgs);
    }
  }
}
