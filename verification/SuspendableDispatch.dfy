/** The request context: dispatch that any action may suspend, a queue of what is still to run, and
    the releases that resume it. */
module SuspendableDispatch {
  import opened Basics
  import opened ChainedRouting
  import opened DispatchPlan
  import opened DispatchCourse

  /** The default depth at which nested execution is refused. */
  const RECURSION := 1000

  class Context {
    const oracle: Oracle
    const plan: Option<Plan>
    const arguments: seq<string>
    const skipMethod: bool
    /** The references that hooks hold when dispatch begins. */
    const held: nat

    var actionRefCount: int
    var pendingAsync: seq<Component>
    var stack: seq<Component>
    var work: Work
    var async: bool
    var finalized: bool
    var finalizations: nat

    function Captures(): seq<string> {
      if plan.Some? then plan.value.captures else []
    }

    /** What the request will have run in the end. */
    ghost function Goal(): Work {
      if skipMethod || plan.None? then Work([], 0, 0, arguments, false)
      else RunRequest(oracle, plan.value, arguments, held > 0)
    }

    /** A request with its matched plan, if any; whether a hook skips dispatch, and how many references
        hooks have taken. */
    constructor (oracle: Oracle, plan: Option<Plan>, arguments: seq<string>, skipMethod: bool, held: nat)
      ensures this.oracle == oracle && this.plan == plan && this.arguments == arguments
      ensures this.skipMethod == skipMethod && this.held == held
      ensures Unstarted()
    {
      this.oracle, this.plan, this.arguments, this.skipMethod := oracle, plan, arguments, skipMethod;
      this.held := held;
      actionRefCount, pendingAsync, stack := held, [], [];
      work := Work([], 0, 0, arguments, false);
      async, finalized, finalizations := false, false, 0;
    }

    ghost predicate Unstarted()
      reads this
    {
      && actionRefCount == held && pendingAsync == [] && stack == []
      && !async && !finalized && finalizations == 0
      && work == Work([], 0, 0, arguments, false)
    }

    /** Between two events: the request is finished, once, with exactly its goal behind it; or it
        is suspended, somebody holds a reference, and resuming the queue reaches the goal. */
    ghost predicate Settled()
      reads this
    {
      && stack == []
      && actionRefCount >= 0
      && if finalized then finalizations == 1 && work == Goal()
         else
           && finalizations == 0 && async && actionRefCount > 0
           && RunResumed(oracle, work, pendingAsync, Captures()) == Goal()
    }

    method DetachAsync()
      modifies this`actionRefCount
      ensures actionRefCount == old(actionRefCount) + 1
      ensures old(Settled()) ==> Settled()
    {
      actionRefCount := actionRefCount + 1;
    }

    /** `Context::execute` of an action that has its own method. Releases made while it runs only
        count down, because the stack is not empty; `refs` is what it adds. Any depth of the stack and
        any references held already are allowed; at the recursion limit nothing is called. */
    method ExecuteAction(a: Action) returns (ret: bool)
      modifies this`actionRefCount, this`stack, this`work
      ensures stack == old(stack) && actionRefCount >= old(actionRefCount)
      ensures if |stack| >= RECURSION then !ret && work == old(work) && actionRefCount == old(actionRefCount)
              else Result(work, ret, actionRefCount - old(actionRefCount)) == RunAction(oracle, old(work), a)
    {
      if |stack| >= RECURSION {
        return false;
      }
      stack := stack + [Single(a)];
      if work.detached {
        ret := false;
      } else {
        var out := oracle(|work.log|);
        work := work.(log := work.log + [Call(a, work.args)], detached := out.detach);
        actionRefCount := actionRefCount + out.refs;
        ret := out.ret;
      }
      stack := stack[..|stack| - 1];
    }

    /** One turn of the chain's loop: captures for a link, the arguments for the last action. */
    method ExecuteLink(chain: seq<Action>, captures: seq<string>, currentArgs: seq<string>) returns (ret: bool)
      requires |stack| <= 1 && actionRefCount == 0 && work.ix < |chain|
      modifies this`actionRefCount, this`stack, this`work
      ensures stack == old(stack) && actionRefCount >= 0
      ensures Result(work, ret, actionRefCount) == RunLink(oracle, old(work), chain, captures, currentArgs)
    {
      var action := chain[work.ix];
      var taken := TakeCaptures(action, work.captured, captures);
      work := work.(captured := work.captured + |taken|,
                    args := if action != chain[|chain| - 1] then taken else currentArgs);
      ret := ExecuteAction(action);
    }

    /** `Context::execute` of a chain. Its loop goes on at the stored position until the end, a
        failure, or an action that holds references; then the chain queues itself in front. */
    method ExecuteChain(chain: seq<Action>) returns (ret: bool)
      requires stack == [] && actionRefCount == 0
      modifies this`actionRefCount, this`stack, this`work, this`pendingAsync
      ensures stack == [] && actionRefCount >= 0
      ensures actionRefCount == 0 ==> pendingAsync == old(pendingAsync)
      ensures var (r, left) := RunUntil(oracle, old(work), chain, Captures(), old(work).args);
              && Result(work, ret, actionRefCount) == r
              && pendingAsync == if left then [Chain(chain)] + old(pendingAsync) else old(pendingAsync)
    {
      hide RunUntil, RunLink, RunAction, Grab;
      stack := stack + [Chain(chain)];
      var captures := Captures();
      var currentArgs := work.args;
      ghost var all := RunUntil(oracle, work, chain, captures, currentArgs);
      ret := true;
      while work.ix < |chain|
        invariant |stack| == 1 && pendingAsync == old(pendingAsync) && actionRefCount >= 0 && ret
        invariant actionRefCount == 0 ==> RunUntil(oracle, work, chain, captures, currentArgs) == all
        invariant actionRefCount > 0 ==>
                    all == if work.ix < |chain|
                           then (Result(work.(args := currentArgs), true, actionRefCount), true)
                           else (Result(work, true, actionRefCount), false)
        decreases |chain| - work.ix
      {
        if actionRefCount != 0 {
          pendingAsync := [Chain(chain)] + pendingAsync;
          work := work.(args := currentArgs);
          break;
        }
        UntilStep(oracle, work, chain, captures, currentArgs);
        ret := ExecuteLink(chain, captures, currentArgs);
        if !ret {
          break;
        }
        work := work.(ix := work.ix + 1);
      }
      UntilDone(oracle, work, chain, captures, currentArgs);
      stack := stack[..|stack| - 1];
    }

    /** The captures stripped for one action. */
    static method TakeCaptures(action: Action, captured: nat, captures: seq<string>) returns (taken: seq<string>)
      ensures taken == Grab(action, captured, captures)
    {
      taken := [];
      var next := captured;
      while |taken| < action.numberOfCaptures && next < |captures|
        invariant next == captured + |taken|
        invariant |taken| > 0 ==> next <= |captures| && |taken| <= action.numberOfCaptures
        invariant |taken| > 0 ==> taken == captures[captured..next]
      {
        taken := taken + [captures[next]];
        next := next + 1;
      }
    }

    method Execute(c: Component) returns (ret: bool)
      requires stack == [] && actionRefCount == 0
      modifies this`actionRefCount, this`stack, this`work, this`pendingAsync
      ensures stack == [] && actionRefCount >= 0
      ensures actionRefCount == 0 ==> pendingAsync == old(pendingAsync)
      ensures c.Chain? ==>
                var (r, left) := RunUntil(oracle, old(work), c.chain, Captures(), old(work).args);
                && Result(work, ret, actionRefCount) == r
                && pendingAsync == if left then [c] + old(pendingAsync) else old(pendingAsync)
      ensures c.Single? ==>
                && Result(work, ret, actionRefCount) == RunAction(oracle, old(work), c.action)
                && pendingAsync == old(pendingAsync)
    {
      match c
      case Single(a) => ret := ExecuteAction(a);
      case Chain(chain) => ret := ExecuteChain(chain);
    }

    lemma PlanStart()
      requires plan.Some? && !skipMethod
      ensures var p, start := plan.value, Work([], 0, 0, arguments, false);
              Goal() == if held == 0 then RunBegin(oracle, start, p.beginAuto, p)
                        else RunResumed(oracle, start, [] + (Singles(p.beginAuto) + ([p.main] + EndList(p))),
                                        p.captures)
    {
      NoQueue(WholeQueue(plan.value));
    }

    /** `Controller::_DISPATCH`: runs until something holds a reference, queues from then on. */
    method Dispatch(p: Plan) returns (ret: bool)
      requires plan == Some(p) && Unstarted() && !skipMethod
      modifies this
      ensures stack == [] && !finalized && finalizations == 0 && actionRefCount >= 0
      ensures async <==> actionRefCount > 0
      ensures actionRefCount == 0 ==> work == Goal() && pendingAsync == []
      ensures actionRefCount > 0 ==> RunResumed(oracle, work, pendingAsync, p.captures) == Goal()
      ensures ret <==> AllTrue(oracle, work.log) && (actionRefCount > 0 || |work.log| == Named(p))
    {
      hide RunResumed, RunBegin, RunEnd, RunAction, RunUntil, EndList, Goal, Singles, AllTrue, CutShort;
      Nothing();
      ret := true;
      var i := 0;
      PlanStart();
      assert p.beginAuto[0..] == p.beginAuto;
      while i < |p.beginAuto| && ret
        invariant 0 <= i <= |p.beginAuto| && stack == [] && !async && !finalized && finalizations == 0
        invariant actionRefCount >= 0
        invariant actionRefCount == 0 ==> pendingAsync == []
        invariant actionRefCount == 0 && ret ==> RunBegin(oracle, work, p.beginAuto[i..], p) == Goal()
        invariant actionRefCount > 0 && ret ==>
                    RunResumed(oracle, work, pendingAsync + (Singles(p.beginAuto[i..]) + ([p.main] + EndList(p))),
                               p.captures) == Goal()
        invariant actionRefCount == 0 && !ret ==> RunEnd(oracle, work, p) == Goal()
        invariant actionRefCount > 0 && !ret ==>
                    pendingAsync == [] && RunResumed(oracle, work, EndList(p), p.captures) == Goal()
        invariant Returning(ret, Named(p))
        invariant actionRefCount == 0 && ret ==> |work.log| == i && work.ix == 0
        decreases |p.beginAuto| - i, ret
      {
        var action := p.beginAuto[i];
        assert p.beginAuto[i..][1..] == p.beginAuto[i + 1..];
        if actionRefCount != 0 {
          QueueShift(pendingAsync, p.beginAuto[i..], [p.main] + EndList(p));
          pendingAsync := pendingAsync + [Single(action)];
          i := i + 1;
        } else {
          BeginStep(oracle, work, p.beginAuto[i..], p);
          ActionReturn(oracle, work, action, Named(p));
          ret := ExecuteAction(action);
          NoQueue(Singles(p.beginAuto[i + 1..]) + ([p.main] + EndList(p)));
          i := if ret then i + 1 else i;
        }
      }
      if ret {
        assert p.beginAuto[i..] == [];
        QueueMain(pendingAsync, p);
        if actionRefCount != 0 {
          pendingAsync := pendingAsync + [p.main];
        } else {
          MainStep(oracle, work, p);
          MainReturn(p);
          NoQueue(EndList(p));
          ret := Execute(p.main);
          assert [p.main] + [] == [p.main];
        }
      } else {
        NoQueue(EndList(p));
      }
      ret := DispatchEnd(p, ret);
    }

    /** The last part of `_DISPATCH`: End, and the mark of a suspended request. */
    method DispatchEnd(p: Plan, before: bool) returns (ret: bool)
      requires plan == Some(p) && stack == [] && !async && !finalized && finalizations == 0 && actionRefCount >= 0
      requires actionRefCount == 0 ==> RunEnd(oracle, work, p) == Goal() && pendingAsync == []
      requires actionRefCount > 0 ==> RunResumed(oracle, work, pendingAsync + EndList(p), p.captures) == Goal()
      requires Returning(before, Named(p))
      requires actionRefCount == 0 && before ==> |work.log| == Named(p) - if p.end.Some? then 1 else 0
      modifies this
      ensures stack == [] && !finalized && finalizations == 0 && actionRefCount >= 0
      ensures async <==> actionRefCount > 0
      ensures actionRefCount == 0 ==> work == Goal() && pendingAsync == []
      ensures actionRefCount > 0 ==> RunResumed(oracle, work, pendingAsync, p.captures) == Goal()
      ensures ret <==> AllTrue(oracle, work.log) && (actionRefCount > 0 || |work.log| == Named(p))
    {
      hide RunResumed, RunEnd, RunAction, EndList, Goal, AllTrue, CutShort;
      ret := before;
      EndStep(oracle, work, pendingAsync, p);
      if p.end.Some? {
        if actionRefCount != 0 {
          pendingAsync := pendingAsync + [Single(p.end.value)];
        } else {
          if ret {
            ActionReturn(oracle, work, p.end.value, Named(p));
          } else {
            EndReturn(oracle, work, p.end.value, Named(p));
          }
          var ended := ExecuteAction(p.end.value);
          if !ended {
            ret := false;
          }
          NoQueue([]);
          ResumeNothing(oracle, work, p.captures);
        }
      }
      if actionRefCount != 0 {
        async := true;
      }
      Settles(ret, p);
    }

    /** While everything returned true all calls did; after a failure some did not, or some action was
        left uncalled by a request that holds no reference. */
    ghost predicate Returning(ret: bool, all: nat)
      reads this
    {
      && (ret ==> AllTrue(oracle, work.log))
      && (!ret ==> CutShort(oracle, work, all) && (actionRefCount > 0 ==> !AllTrue(oracle, work.log)))
    }

    lemma Settles(ret: bool, p: Plan)
      requires Returning(ret, Named(p)) && (actionRefCount == 0 && ret ==> |work.log| == Named(p))
      requires actionRefCount >= 0
      ensures ret <==> AllTrue(oracle, work.log) && (actionRefCount > 0 || |work.log| == Named(p))
    {
    }

    lemma Nothing()
      requires work.log == []
      ensures AllTrue(oracle, work.log)
    {
    }

    lemma MainReturn(p: Plan)
      requires AllTrue(oracle, work.log) && |work.log| == |p.beginAuto| && work.ix == 0
      ensures p.main.Single? ==>
                var r := RunAction(oracle, work, p.main.action);
                && (r.ret ==> AllTrue(oracle, r.work.log) && |r.work.log| == |work.log| + 1)
                && (!r.ret ==> CutShort(oracle, r.work, Named(p)) && (r.refs > 0 ==> !AllTrue(oracle, r.work.log)))
      ensures p.main.Chain? ==>
                var (r, left) := RunUntil(oracle, work, p.main.chain, p.captures, work.args);
                && (r.ret ==> AllTrue(oracle, r.work.log)
                              && (r.refs == 0 ==> |r.work.log| == |work.log| + |p.main.chain|))
                && (!r.ret ==> CutShort(oracle, r.work, Named(p)) && (r.refs > 0 ==> !AllTrue(oracle, r.work.log)))
    {
      hide AllTrue, CutShort, RunAction, RunUntil;
      match p.main
      case Single(a) => ActionReturn(oracle, work, a, Named(p));
      case Chain(chain) => UntilReturn(oracle, work, chain, p.captures, work.args, Named(p));
    }

    /** The engine request is finalized at most once. */
    method Finalize()
      modifies this`finalized, this`finalizations
      ensures finalized
      ensures finalizations == if old(finalized) then old(finalizations) else old(finalizations) + 1
    {
      if finalized {
        return;
      }
      finalized, finalizations := true, finalizations + 1;
    }

    method HandleRequest()
      requires Unstarted()
      modifies this
      ensures Settled() && (finalized ==> pendingAsync == [])
    {
      if !skipMethod {
        if plan.Some? {
          var _ := Dispatch(plan.value);
        }
        if async {
          return;
        }
      }
      Finalize();
    }

    /** Takes the next component off the queue and runs it. */
    method ResumeNext() returns (ret: bool)
      requires stack == [] && actionRefCount == 0 && pendingAsync != []
      modifies this`actionRefCount, this`stack, this`work, this`pendingAsync
      ensures stack == [] && actionRefCount >= 0
      ensures actionRefCount == 0 ==> pendingAsync == old(pendingAsync)[1..]
      ensures RunResumed(oracle, old(work), old(pendingAsync), Captures())
              == if !ret && actionRefCount == 0 then work else RunResumed(oracle, work, pendingAsync, Captures())
      ensures Leftover(oracle, old(work), old(pendingAsync), Captures())
              == if !ret && actionRefCount == 0 then pendingAsync else Leftover(oracle, work, pendingAsync, Captures())
    {
      hide RunResumed, RunUntil, RunAction, Leftover;
      var pendingAction := pendingAsync[0];
      assert pendingAsync == [pendingAction] + pendingAsync[1..];
      ResumeStep(oracle, work, pendingAction, pendingAsync[1..], Captures());
      LeftoverStep(oracle, work, pendingAction, pendingAsync[1..], Captures());
      if pendingAction.Chain? {
        LeftoverChain(oracle, work, pendingAction.chain, pendingAsync[1..], Captures());
        ResumeChain(oracle, work, pendingAction.chain, pendingAsync[1..], Captures());
      }
      pendingAsync := pendingAsync[1..];
      ret := Execute(pendingAction);
    }

    /** A release from the event loop: nothing is on the stack and the caller held a reference. */
    method AttachAsync()
      requires Settled() && actionRefCount > 0
      modifies this
      ensures Settled()
      ensures old(finalized) ==> finalized && work == old(work) && pendingAsync == old(pendingAsync)
      ensures !old(finalized) ==>
                if finalized then pendingAsync == old(Leftover(oracle, work, pendingAsync, Captures()))
                else Leftover(oracle, work, pendingAsync, Captures())
                     == old(Leftover(oracle, work, pendingAsync, Captures()))
    {
      actionRefCount := actionRefCount - 1;
      if actionRefCount != 0 || stack != [] {
        return;
      }
      if finalized && !async {
        return;
      }
      if async && !finalized {
        hide RunResumed, Goal, Leftover;
        ghost var left := Leftover(oracle, work, pendingAsync, Captures());
        var go := true;
        while pendingAsync != [] && go
          invariant stack == [] && !finalized && finalizations == 0 && async && actionRefCount == 0
          invariant go ==> RunResumed(oracle, work, pendingAsync, Captures()) == Goal()
          invariant !go ==> work == Goal()
          invariant left == if go then Leftover(oracle, work, pendingAsync, Captures()) else pendingAsync
          decreases |pendingAsync|, go
        {
          var ret := ResumeNext();
          if actionRefCount != 0 {
            return;
          }
          if !ret {
            go := false;
          }
        }
        if go {
          ResumeNothing(oracle, work, Captures());
          LeftoverNothing(oracle, work, Captures());
        }
        Finalize();
      }
    }
  }

  /** What the event loop does with a suspended request. */
  datatype Event = Attach | Detach

  /** Any pattern of releases, from any moment between two events. References are balanced, so a release
      comes only while one is held. Once the request is finalized, its queue is what a failure has left of
      the queue at that moment; until then just as much would be left. */
  method Release(c: Context, events: seq<Event>)
    requires c.Settled()
    modifies c
    ensures c.Settled()
    ensures old(c.finalized) ==> c.finalized && c.work == old(c.work) && c.pendingAsync == old(c.pendingAsync)
    ensures !old(c.finalized) ==>
              old(Leftover(c.oracle, c.work, c.pendingAsync, c.Captures()))
              == if c.finalized then c.pendingAsync else Leftover(c.oracle, c.work, c.pendingAsync, c.Captures())
  {
    hide Leftover, RunResumed;
    for i := 0 to |events|
      invariant c.Settled()
      invariant old(c.finalized) ==> c.finalized && c.work == old(c.work) && c.pendingAsync == old(c.pendingAsync)
      invariant !old(c.finalized) ==>
                  old(Leftover(c.oracle, c.work, c.pendingAsync, c.Captures()))
                  == if c.finalized then c.pendingAsync else Leftover(c.oracle, c.work, c.pendingAsync, c.Captures())
    {
      if c.actionRefCount > 0 {
        match events[i] {
          case Attach => c.AttachAsync();
          case Detach => c.DetachAsync();
        }
      }
    }
  }

  /** Serving one request under any pattern of releases: after every event the request is settled,
      and once it is finalized it has run its plan. `work0` and `queue0` are what stood when the first
      dispatch returned; the queue of the finalized request is what a failure has left of them, so it is
      empty if and only if the resumed run went on after every component but the last. */
  method Serve(c: Context, events: seq<Event>) returns (ghost work0: Work, ghost queue0: seq<Component>)
    requires c.Unstarted()
    modifies c
    ensures c.Settled()
    ensures c.actionRefCount == 0 ==> c.finalized
    ensures c.finalized ==> c.pendingAsync == Leftover(c.oracle, work0, queue0, c.Captures())
    ensures c.finalized ==> (c.pendingAsync == [] <==> GoesOnThrough(c.oracle, work0, queue0, c.Captures()))
    ensures !c.finalized ==>
              Leftover(c.oracle, c.work, c.pendingAsync, c.Captures())
              == Leftover(c.oracle, work0, queue0, c.Captures())
    ensures !c.skipMethod && c.plan.Some? ==>
              RunResumed(c.oracle, work0, queue0, c.Captures())
              == RunRequest(c.oracle, c.plan.value, c.arguments, c.held > 0)
    ensures c.finalized && !c.skipMethod && c.plan.Some? ==>
              var p := c.plan.value;
              && c.work == RunRequest(c.oracle, p, c.arguments, c.held > 0)
              && Request(c.oracle, p, c.arguments, c.held > 0).Course(c.work.log)
  {
    hide Leftover, GoesOnThrough, RunResumed, RunRequest;
    c.HandleRequest();
    work0, queue0 := c.work, c.pendingAsync;
    LeftoverNothing(c.oracle, work0, c.Captures());
    ResumeNothing(c.oracle, work0, c.Captures());
    Release(c, events);
    NothingLeft(c.oracle, work0, queue0, c.Captures());
    if c.plan.Some? {
      CourseOfRun(Request(c.oracle, c.plan.value, c.arguments, c.held > 0));
    }
  }
}
