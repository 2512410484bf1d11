/** What one request runs, seen without suspension: the plan of a dispatch, and the run of that
    plan for actions whose outcomes are given by an oracle. */
module DispatchPlan {
  import opened Basics
  import opened Slashes
  import opened ChainedRouting
  import opened ChainedLineage

  /** What one call of an action's method does: its return value, the asynchronous references it
      still holds afterwards, and whether it detached the rest of the request. */
  datatype Outcome = Outcome(ret: bool, refs: nat, detach: bool)

  /** The outcome of the n-th call of the request, whatever it depends on. */
  type Oracle = nat -> Outcome

  datatype Call = Call(action: Action, args: seq<string>)

  datatype Component = Single(action: Action) | Chain(chain: seq<Action>)

  /** What dispatch works on: the controller's lists and the matched action with its captures. */
  datatype Plan = Plan(beginAuto: seq<Action>, main: Component, end: Option<Action>, captures: seq<string>)

  /** The part of the request that actions change: the calls made, the position in the chain, the
      captures used up, the current arguments and the detached flag. */
  datatype Work = Work(log: seq<Call>, ix: nat, captured: nat, args: seq<string>, detached: bool)

  datatype Result = Result(work: Work, ret: bool, refs: nat)

  /** `numberOfCaptures` more captures, or as many as are left. */
  function Grab(a: Action, captured: nat, captures: seq<string>): (args: seq<string>) {
    var n := if a.numberOfCaptures > 0 then a.numberOfCaptures else 0;
    if captured >= |captures| then []
    else if captured + n <= |captures| then captures[captured..captured + n]
    else captures[captured..]
  }

  /** One call of one action with the current arguments; a detached request calls nothing. */
  function RunAction(o: Oracle, s: Work, a: Action): Result {
    if s.detached then Result(s, false, 0)
    else
      var out := o(|s.log|);
      Result(s.(log := s.log + [Call(a, s.args)], detached := out.detach), out.ret, out.refs)
  }

  /** The next action of a chain, with the captures stripped for it; the last gets the arguments. */
  function RunLink(o: Oracle, s: Work, chain: seq<Action>, captures: seq<string>, finalArgs: seq<string>): Result
    requires s.ix < |chain|
  {
    var a := chain[s.ix];
    var args := Grab(a, s.captured, captures);
    RunAction(o, s.(captured := s.captured + |args|,
                    args := if a != chain[|chain| - 1] then args else finalArgs), a)
  }

  /** A whole chain from its current position, as if no call ever suspended it. */
  function RunChain(o: Oracle, s: Work, chain: seq<Action>, captures: seq<string>, finalArgs: seq<string>): Result
    decreases |chain| - s.ix
  {
    if s.ix >= |chain| then Result(s, true, 0)
    else
      var r := RunLink(o, s, chain, captures, finalArgs);
      if !r.ret then r
      else if s.ix + 1 >= |chain| then r.(work := r.work.(ix := s.ix + 1))
      else RunChain(o, r.work.(ix := s.ix + 1), chain, captures, finalArgs)
  }

  function RunComponent(o: Oracle, s: Work, c: Component, captures: seq<string>): Result {
    match c
    case Single(a) => RunAction(o, s, a)
    case Chain(chain) => RunChain(o, s, chain, captures, s.args)
  }

  /** Once a request has been suspended, an action that fails while it holds no reference drops
      everything after it; one that fails while holding references does not. */
  function RunResumed(o: Oracle, s: Work, pending: seq<Component>, captures: seq<string>): Work
    decreases |pending|
  {
    if pending == [] then s
    else
      var r := RunComponent(o, s, pending[0], captures);
      if !r.ret && r.refs == 0 then r.work
      else RunResumed(o, r.work, pending[1..], captures)
  }

  /** What such a failure leaves in the queue. */
  function Leftover(o: Oracle, s: Work, pending: seq<Component>, captures: seq<string>): seq<Component>
    decreases |pending|
  {
    if pending == [] then []
    else
      var r := RunComponent(o, s, pending[0], captures);
      if !r.ret && r.refs == 0 then pending[1..]
      else Leftover(o, r.work, pending[1..], captures)
  }

  function EndList(p: Plan): seq<Component> {
    if p.end.Some? then [Single(p.end.value)] else []
  }

  function Singles(actions: seq<Action>): seq<Component> {
    if actions == [] then [] else [Single(actions[0])] + Singles(actions[1..])
  }

  /** Until a call suspends the request, a failing action only skips to the End action. */
  function RunBegin(o: Oracle, s: Work, actions: seq<Action>, p: Plan): Work
    decreases |actions|
  {
    if actions == [] then RunMain(o, s, p)
    else
      var r := RunAction(o, s, actions[0]);
      if r.refs > 0 then
        RunResumed(o, r.work,
                   if r.ret then Singles(actions[1..]) + [p.main] + EndList(p) else EndList(p), p.captures)
      else if r.ret then RunBegin(o, r.work, actions[1..], p)
      else RunEnd(o, r.work, p)
  }

  function RunMain(o: Oracle, s: Work, p: Plan): Work {
    match p.main
    case Single(a) =>
      var r := RunAction(o, s, a);
      if r.refs > 0 then RunResumed(o, r.work, EndList(p), p.captures) else RunEnd(o, r.work, p)
    case Chain(chain) => RunFirstLinks(o, s, chain, s.args, p)
  }

  function RunFirstLinks(o: Oracle, s: Work, chain: seq<Action>, finalArgs: seq<string>, p: Plan): Work
    decreases |chain| - s.ix
  {
    if s.ix >= |chain| then RunEnd(o, s, p)
    else
      var r := RunLink(o, s, chain, p.captures, finalArgs);
      if !r.ret then
        (if r.refs > 0 then RunResumed(o, r.work, EndList(p), p.captures) else RunEnd(o, r.work, p))
      else if r.refs > 0 then
        RunResumed(o, r.work.(ix := s.ix + 1, args := finalArgs), [Chain(chain)] + EndList(p), p.captures)
      else RunFirstLinks(o, r.work.(ix := s.ix + 1), chain, finalArgs, p)
  }

  function RunEnd(o: Oracle, s: Work, p: Plan): Work {
    if p.end.Some? then RunAction(o, s, p.end.value).work else s
  }

  /** Everything a request runs, from its matched arguments. */
  function RunPlan(o: Oracle, p: Plan, args: seq<string>): Work {
    RunBegin(o, Work([], 0, 0, args, false), p.beginAuto, p)
  }

  /** What is queued when a hook holds a reference before dispatch begins: everything. */
  function WholeQueue(p: Plan): seq<Component> {
    Singles(p.beginAuto) + ([p.main] + EndList(p))
  }

  /** Everything a request runs, whether or not a hook has `held` it back before dispatch. */
  function RunRequest(o: Oracle, p: Plan, args: seq<string>, held: bool): Work {
    if held then RunResumed(o, Work([], 0, 0, args, false), WholeQueue(p), p.captures) else RunPlan(o, p, args)
  }

  /** One call of the program's chain loop: to the end, to a failure, or to the first link that
      leaves references behind; the flag tells whether part of the chain is left for later. */
  function RunUntil(o: Oracle, s: Work, chain: seq<Action>, captures: seq<string>, finalArgs: seq<string>)
    : (Result, bool)
    decreases |chain| - s.ix
  {
    if s.ix >= |chain| then (Result(s, true, 0), false)
    else
      var r := RunLink(o, s, chain, captures, finalArgs);
      var s' := r.work.(ix := s.ix + 1);
      if !r.ret then (r, false)
      else if r.refs == 0 then RunUntil(o, s', chain, captures, finalArgs)
      else if s'.ix < |chain| then (Result(s'.(args := finalArgs), true, r.refs), true)
      else (Result(s', true, r.refs), false)
  }

  /** Every call made so far has returned true. */
  ghost predicate AllTrue(o: Oracle, log: seq<Call>) {
    forall n :: 0 <= n < |log| ==> o(n).ret
  }

  /** How many actions a plan names. */
  function Named(p: Plan): nat {
    |p.beginAuto| + (if p.main.Single? then 1 else |p.main.chain|) + if p.end.Some? then 1 else 0
  }

  /** Either a call has returned false, or a detached request has left some of `all` actions uncalled. */
  ghost predicate CutShort(o: Oracle, s: Work, all: nat) {
    !AllTrue(o, s.log) || (s.detached && |s.log| < all)
  }

  lemma ActionReturn(o: Oracle, s: Work, a: Action, all: nat)
    requires |s.log| < all
    ensures var r := RunAction(o, s, a);
            && r.work.ix == s.ix
            && (r.ret ==> |r.work.log| == |s.log| + 1 && (AllTrue(o, s.log) ==> AllTrue(o, r.work.log)))
            && (!r.ret ==> CutShort(o, r.work, all) && (r.refs > 0 ==> !AllTrue(o, r.work.log)))
  {
    if !s.detached && !o(|s.log|).ret {
      var n := |s.log|;
      assert !o(n).ret && n < |RunAction(o, s, a).work.log|;
    }
  }

  /** A chain's loop returns true if every link it came to was called and returned true. */
  lemma {:induction false} UntilReturn(o: Oracle, s: Work, chain: seq<Action>, captures: seq<string>,
                                       finalArgs: seq<string>, all: nat)
    requires AllTrue(o, s.log) && |s.log| + |chain| - s.ix <= all && s.ix <= |chain|
    ensures var (r, left) := RunUntil(o, s, chain, captures, finalArgs);
            && (r.ret ==> AllTrue(o, r.work.log) && (r.refs == 0 ==> |r.work.log| == |s.log| + |chain| - s.ix))
            && (!r.ret ==> CutShort(o, r.work, all) && (r.refs > 0 ==> !AllTrue(o, r.work.log)))
    decreases |chain| - s.ix
  {
    hide RunLink, RunUntil;
    if s.ix >= |chain| {
      UntilDone(o, s, chain, captures, finalArgs);
    } else {
      UntilStep(o, s, chain, captures, finalArgs);
      LinkReturn(o, s, chain, captures, finalArgs, all);
      var r := RunLink(o, s, chain, captures, finalArgs);
      if r.ret && r.refs == 0 {
        UntilReturn(o, r.work.(ix := s.ix + 1), chain, captures, finalArgs, all);
      }
    }
  }

  lemma LinkReturn(o: Oracle, s: Work, chain: seq<Action>, captures: seq<string>, finalArgs: seq<string>, all: nat)
    requires s.ix < |chain| && |s.log| < all
    ensures var r := RunLink(o, s, chain, captures, finalArgs);
            && (r.ret ==> |r.work.log| == |s.log| + 1 && (AllTrue(o, s.log) ==> AllTrue(o, r.work.log)))
            && (!r.ret ==> CutShort(o, r.work, all) && (r.refs > 0 ==> !AllTrue(o, r.work.log)))
  {
    var args := Grab(chain[s.ix], s.captured, captures);
    ActionReturn(o, s.(captured := s.captured + |args|,
                       args := if chain[s.ix] != chain[|chain| - 1] then args else finalArgs), chain[s.ix], all);
  }

  /** Once something has failed or was left uncalled, End makes no difference to that. */
  lemma EndReturn(o: Oracle, s: Work, a: Action, all: nat)
    requires CutShort(o, s, all)
    ensures CutShort(o, RunAction(o, s, a).work, all)
    ensures RunAction(o, s, a).refs > 0 || !AllTrue(o, s.log) ==> !AllTrue(o, RunAction(o, s, a).work.log)
  {
  }

  /** Where the loop stops does not change what the whole chain runs. */
  lemma {:induction false} UntilThenRest(o: Oracle, s: Work, chain: seq<Action>, captures: seq<string>,
                                         finalArgs: seq<string>)
    ensures var whole := RunChain(o, s, chain, captures, finalArgs);
            var (r, left) := RunUntil(o, s, chain, captures, finalArgs);
            && (left ==> r.ret && r.refs > 0 && r.work.args == finalArgs
                         && whole == RunChain(o, r.work, chain, captures, finalArgs))
            && (!left ==> whole.work == r.work && whole.ret == r.ret && (!r.ret ==> whole.refs == r.refs))
    decreases |chain| - s.ix
  {
    hide RunLink, RunChain, RunUntil;
    if s.ix >= |chain| {
      UntilDone(o, s, chain, captures, finalArgs);
      RunChainDone(o, s, chain, captures, finalArgs);
    } else {
      var r := RunLink(o, s, chain, captures, finalArgs);
      var s' := r.work.(ix := s.ix + 1);
      UntilStep(o, s, chain, captures, finalArgs);
      ChainStep(o, s, chain, captures, finalArgs);
      if r.ret && s'.ix < |chain| {
        if r.refs == 0 {
          UntilThenRest(o, s', chain, captures, finalArgs);
        } else {
          ChainIgnoresArgs(o, s', chain, captures, finalArgs);
        }
      } else if r.ret && r.refs == 0 {
        UntilDone(o, s', chain, captures, finalArgs);
      }
    }
  }

  /** A link's arguments are set before it runs. */
  lemma ChainIgnoresArgs(o: Oracle, s: Work, chain: seq<Action>, captures: seq<string>, finalArgs: seq<string>)
    requires s.ix < |chain|
    ensures RunChain(o, s, chain, captures, finalArgs) == RunChain(o, s.(args := finalArgs), chain, captures, finalArgs)
  {
    assert RunLink(o, s, chain, captures, finalArgs) == RunLink(o, s.(args := finalArgs), chain, captures, finalArgs);
  }

  /** The first call of a chain in a request that was not suspended before. */
  lemma {:induction false} UntilThenEnd(o: Oracle, s: Work, chain: seq<Action>, finalArgs: seq<string>, p: Plan)
    ensures var (r, left) := RunUntil(o, s, chain, p.captures, finalArgs);
            RunFirstLinks(o, s, chain, finalArgs, p)
            == if r.refs > 0 then RunResumed(o, r.work, (if left then [Chain(chain)] else []) + EndList(p), p.captures)
               else RunEnd(o, r.work, p)
    decreases |chain| - s.ix
  {
    hide RunLink, RunResumed, EndList, RunEnd, RunChain, RunUntil, RunFirstLinks;
    NoQueue(EndList(p));
    FirstLinksStep(o, s, chain, finalArgs, p);
    if s.ix >= |chain| {
      UntilDone(o, s, chain, p.captures, finalArgs);
    } else {
      var r := RunLink(o, s, chain, p.captures, finalArgs);
      var s' := r.work.(ix := s.ix + 1);
      UntilStep(o, s, chain, p.captures, finalArgs);
      LastLinkKeepsArgs(o, s, chain, p.captures, finalArgs);
      if r.ret && r.refs == 0 {
        UntilThenEnd(o, s', chain, finalArgs, p);
      } else if r.ret && s'.ix >= |chain| {
        assert s'.(args := finalArgs) == s';
        ResumeFinished(o, s', chain, EndList(p), p.captures);
      }
    }
  }

  lemma FirstLinksStep(o: Oracle, s: Work, chain: seq<Action>, finalArgs: seq<string>, p: Plan)
    ensures s.ix >= |chain| ==> RunFirstLinks(o, s, chain, finalArgs, p) == RunEnd(o, s, p)
    ensures s.ix < |chain| ==>
              var r := RunLink(o, s, chain, p.captures, finalArgs);
              var s' := r.work.(ix := s.ix + 1);
              RunFirstLinks(o, s, chain, finalArgs, p)
              == if !r.ret then
                   (if r.refs > 0 then RunResumed(o, r.work, EndList(p), p.captures) else RunEnd(o, r.work, p))
                 else if r.refs > 0 then
                   RunResumed(o, s'.(args := finalArgs), [Chain(chain)] + EndList(p), p.captures)
                 else RunFirstLinks(o, s', chain, finalArgs, p)
  {
    hide RunLink, RunResumed, RunEnd;
  }

  lemma LastLinkKeepsArgs(o: Oracle, s: Work, chain: seq<Action>, captures: seq<string>, finalArgs: seq<string>)
    requires s.ix < |chain|
    ensures s.ix + 1 >= |chain| ==> RunLink(o, s, chain, captures, finalArgs).work.args == finalArgs
  {
  }

  lemma ResumeFinished(o: Oracle, s: Work, chain: seq<Action>, rest: seq<Component>, captures: seq<string>)
    requires s.ix >= |chain|
    ensures RunResumed(o, s, [Chain(chain)] + rest, captures) == RunResumed(o, s, rest, captures)
  {
    assert ([Chain(chain)] + rest)[1..] == rest;
  }

  /** The steps of a first, unsuspended dispatch. */
  lemma BeginStep(o: Oracle, s: Work, actions: seq<Action>, p: Plan)
    requires actions != []
    ensures var r := RunAction(o, s, actions[0]);
            RunBegin(o, s, actions, p)
            == if r.refs > 0 then
                 RunResumed(o, r.work, if r.ret then Singles(actions[1..]) + ([p.main] + EndList(p)) else EndList(p),
                            p.captures)
               else if r.ret then RunBegin(o, r.work, actions[1..], p)
               else RunEnd(o, r.work, p)
  {
    Regroup(actions[1..], p);
  }

  lemma MainStep(o: Oracle, s: Work, p: Plan)
    ensures p.main.Single? ==>
              var r := RunAction(o, s, p.main.action);
              RunBegin(o, s, [], p)
              == if r.refs > 0 then RunResumed(o, r.work, EndList(p), p.captures) else RunEnd(o, r.work, p)
    ensures p.main.Chain? ==>
              var (r, left) := RunUntil(o, s, p.main.chain, p.captures, s.args);
              RunBegin(o, s, [], p)
              == if r.refs > 0 then RunResumed(o, r.work, (if left then [p.main] else []) + EndList(p), p.captures)
                 else RunEnd(o, r.work, p)
  {
    if p.main.Chain? {
      UntilThenEnd(o, s, p.main.chain, s.args, p);
    }
  }

  /** Running a queue whose first component is cut short and requeued. */
  lemma ResumeStep(o: Oracle, s: Work, c: Component, rest: seq<Component>, captures: seq<string>)
    ensures var r := RunComponent(o, s, c, captures);
            RunResumed(o, s, [c] + rest, captures)
            == if !r.ret && r.refs == 0 then r.work else RunResumed(o, r.work, rest, captures)
  {
    assert ([c] + rest)[1..] == rest;
  }

  lemma ResumeChain(o: Oracle, s: Work, chain: seq<Action>, rest: seq<Component>, captures: seq<string>)
    ensures var (r, left) := RunUntil(o, s, chain, captures, s.args);
            RunResumed(o, s, [Chain(chain)] + rest, captures)
            == if left then RunResumed(o, r.work, [Chain(chain)] + rest, captures)
               else if !r.ret && r.refs == 0 then r.work
               else RunResumed(o, r.work, rest, captures)
  {
    var (r, left) := RunUntil(o, s, chain, captures, s.args);
    UntilThenRest(o, s, chain, captures, s.args);
    ResumeStep(o, s, Chain(chain), rest, captures);
    ResumeStep(o, r.work, Chain(chain), rest, captures);
  }

  lemma LeftoverStep(o: Oracle, s: Work, c: Component, rest: seq<Component>, captures: seq<string>)
    ensures var r := RunComponent(o, s, c, captures);
            Leftover(o, s, [c] + rest, captures)
            == if !r.ret && r.refs == 0 then rest else Leftover(o, r.work, rest, captures)
  {
    assert ([c] + rest)[1..] == rest;
  }

  lemma LeftoverChain(o: Oracle, s: Work, chain: seq<Action>, rest: seq<Component>, captures: seq<string>)
    ensures var (r, left) := RunUntil(o, s, chain, captures, s.args);
            Leftover(o, s, [Chain(chain)] + rest, captures)
            == if left then Leftover(o, r.work, [Chain(chain)] + rest, captures)
               else if !r.ret && r.refs == 0 then rest
               else Leftover(o, r.work, rest, captures)
  {
    var (r, left) := RunUntil(o, s, chain, captures, s.args);
    UntilThenRest(o, s, chain, captures, s.args);
    LeftoverStep(o, s, Chain(chain), rest, captures);
    LeftoverStep(o, r.work, Chain(chain), rest, captures);
  }

  /** Nothing is left if and only if the run goes on after every component but the last. */
  lemma {:induction false} NothingLeft(o: Oracle, s: Work, pending: seq<Component>, captures: seq<string>)
    ensures Leftover(o, s, pending, captures) == [] <==> GoesOnThrough(o, s, pending, captures)
    decreases |pending|
  {
    if pending == [] {
    } else {
      var r := RunComponent(o, s, pending[0], captures);
      NothingLeft(o, r.work, pending[1..], captures);
      if |pending| > 1 {
        GoesOnStep(o, s, pending, captures);
      }
    }
  }

  ghost predicate GoesOnThrough(o: Oracle, s: Work, pending: seq<Component>, captures: seq<string>) {
    forall k: nat :: k < |pending| - 1 ==> GoesOn(o, s, pending, captures, k)
  }

  lemma GoesOnStep(o: Oracle, s: Work, pending: seq<Component>, captures: seq<string>)
    requires |pending| > 1
    ensures var r := RunComponent(o, s, pending[0], captures);
            GoesOnThrough(o, s, pending, captures)
            <==> (r.ret || r.refs > 0) && GoesOnThrough(o, r.work, pending[1..], captures)
  {
    var r := RunComponent(o, s, pending[0], captures);
    var rest := pending[1..];
    if GoesOnThrough(o, s, pending, captures) {
      assert GoesOn(o, s, pending, captures, 0);
      forall k: nat | k < |rest| - 1
        ensures GoesOn(o, r.work, rest, captures, k)
      {
        assert GoesOn(o, s, pending, captures, k + 1);
      }
    } else if (r.ret || r.refs > 0) && GoesOnThrough(o, r.work, rest, captures) {
      forall k: nat | k < |pending| - 1
        ensures GoesOn(o, s, pending, captures, k)
      {
        assert k > 0 ==> GoesOn(o, r.work, rest, captures, k - 1);
      }
      assert false;
    }
  }

  /** The resumed run goes on after the k-th component. */
  predicate GoesOn(o: Oracle, s: Work, pending: seq<Component>, captures: seq<string>, k: nat)
    requires k < |pending|
    decreases k
  {
    var r := RunComponent(o, s, pending[0], captures);
    (r.ret || r.refs > 0) && (k > 0 ==> GoesOn(o, r.work, pending[1..], captures, k - 1))
  }

  lemma LeftoverNothing(o: Oracle, s: Work, captures: seq<string>)
    ensures Leftover(o, s, [], captures) == []
  {
  }

  lemma ResumeNothing(o: Oracle, s: Work, captures: seq<string>)
    ensures RunResumed(o, s, [], captures) == s
  {
  }

  lemma UntilStep(o: Oracle, s: Work, chain: seq<Action>, captures: seq<string>, finalArgs: seq<string>)
    requires s.ix < |chain|
    ensures var r := RunLink(o, s, chain, captures, finalArgs);
            var s' := r.work.(ix := s.ix + 1);
            r.work.ix == s.ix && RunUntil(o, s, chain, captures, finalArgs)
            == if !r.ret then (r, false)
               else if r.refs == 0 then RunUntil(o, s', chain, captures, finalArgs)
               else if s'.ix < |chain| then (Result(s'.(args := finalArgs), true, r.refs), true)
               else (Result(s', true, r.refs), false)
  {
  }

  lemma UntilDone(o: Oracle, s: Work, chain: seq<Action>, captures: seq<string>, finalArgs: seq<string>)
    ensures s.ix >= |chain| ==> RunUntil(o, s, chain, captures, finalArgs) == (Result(s, true, 0), false)
  {
  }

  lemma NoQueue(queue: seq<Component>)
    ensures [] + queue == queue
  {
  }

  lemma QueueMain(queued: seq<Component>, p: Plan)
    ensures queued + (Singles([]) + ([p.main] + EndList(p))) == (queued + [p.main]) + EndList(p)
  {
  }

  lemma EndStep(o: Oracle, s: Work, queued: seq<Component>, p: Plan)
    ensures p.end.Some? ==> EndList(p) == [Single(p.end.value)] && RunEnd(o, s, p) == RunAction(o, s, p.end.value).work
    ensures p.end.None? ==> queued + EndList(p) == queued && RunEnd(o, s, p) == s
  {
  }

  lemma Regroup(actions: seq<Action>, p: Plan)
    ensures Singles(actions) + [p.main] + EndList(p) == Singles(actions) + ([p.main] + EndList(p))
  {
  }

  lemma QueueShift(queued: seq<Component>, actions: seq<Action>, tail: seq<Component>)
    requires actions != []
    ensures queued + (Singles(actions) + tail)
            == (queued + [Single(actions[0])]) + (Singles(actions[1..]) + tail)
  {
    QueueRegroup(queued, Single(actions[0]), Singles(actions[1..]), tail);
  }

  lemma QueueRegroup(queued: seq<Component>, c: Component, more: seq<Component>, tail: seq<Component>)
    ensures queued + (([c] + more) + tail) == (queued + [c]) + (more + tail)
  {
  }

  // ----- What the runs are --------------------------------------------------------------------

  /** The calls of a chain whose actions all succeed. */
  function ChainCalls(chain: seq<Action>, ix: nat, captured: nat, captures: seq<string>,
                      finalArgs: seq<string>): seq<Call>
    decreases |chain| - ix
  {
    if ix >= |chain| then []
    else
      var args := Grab(chain[ix], captured, captures);
      [Call(chain[ix], if chain[ix] != chain[|chain| - 1] then args else finalArgs)]
      + ChainCalls(chain, ix + 1, captured + |args|, captures, finalArgs)
  }

  function Calls(actions: seq<Action>, args: seq<string>): seq<Call> {
    if actions == [] then [] else [Call(actions[0], args)] + Calls(actions[1..], args)
  }

  function ComponentCalls(c: Component, captures: seq<string>, args: seq<string>): seq<Call> {
    match c
    case Single(a) => [Call(a, args)]
    case Chain(chain) => ChainCalls(chain, 0, 0, captures, args)
  }

  /** Begin and the Autos, then the matched action or chain. */
  function BodyCalls(p: Plan, args: seq<string>): seq<Call> {
    Calls(p.beginAuto, args) + ComponentCalls(p.main, p.captures, args)
  }

  lemma LinkCall(o: Oracle, s: Work, chain: seq<Action>, captures: seq<string>, finalArgs: seq<string>)
    requires s.ix < |chain|
    ensures var r := RunLink(o, s, chain, captures, finalArgs);
            && ChainCalls(chain, s.ix, s.captured, captures, finalArgs)
               == [Call(chain[s.ix], r.work.args)] + ChainCalls(chain, s.ix + 1, r.work.captured, captures, finalArgs)
            && r.work.ix == s.ix
            && (s.detached ==> r.work.log == s.log && !r.ret && r.refs == 0)
            && (!s.detached ==>
                  && r.work.log == s.log + [Call(chain[s.ix], r.work.args)]
                  && r.ret == o(|s.log|).ret && r.refs == o(|s.log|).refs && r.work.detached == o(|s.log|).detach)
            && (s.ix + 1 == |chain| ==> r.work.args == finalArgs)
  {
    hide Grab, ChainCalls;
    ChainCallsStep(chain, s.ix, s.captured, captures, finalArgs);
  }

  lemma Shift(log: seq<Call>, call: Call, rest: seq<Call>)
    ensures log + ([call] + rest) == (log + [call]) + rest
  {
  }

  lemma ChainStep(o: Oracle, s: Work, chain: seq<Action>, captures: seq<string>, finalArgs: seq<string>)
    requires s.ix < |chain|
    ensures var r := RunLink(o, s, chain, captures, finalArgs);
            var s' := r.work.(ix := s.ix + 1);
            RunChain(o, s, chain, captures, finalArgs)
            == if !r.ret then r
               else if s'.ix >= |chain| then r.(work := s')
               else RunChain(o, s', chain, captures, finalArgs)
  {
  }

  lemma CallsStep(actions: seq<Action>, args: seq<string>, main: seq<Call>)
    requires actions != []
    ensures Calls(actions, args) + main == [Call(actions[0], args)] + (Calls(actions[1..], args) + main)
  {
  }

  lemma SinglesStep(actions: seq<Action>, tail: seq<Component>)
    requires actions != []
    ensures Singles(actions) + tail == [Single(actions[0])] + (Singles(actions[1..]) + tail)
  {
  }

  lemma ChainCallsEnd(chain: seq<Action>, ix: nat, captured: nat, captures: seq<string>, finalArgs: seq<string>)
    ensures ix >= |chain| ==> ChainCalls(chain, ix, captured, captures, finalArgs) == []
  {
  }

  lemma RunChainDone(o: Oracle, s: Work, chain: seq<Action>, captures: seq<string>, finalArgs: seq<string>)
    ensures s.ix >= |chain| ==> RunChain(o, s, chain, captures, finalArgs) == Result(s, true, 0)
  {
  }

  // ----- Captures ------------------------------------------------------------------------------

  /** Each link called with its own captures, the end point with the arguments. */
  function LinkCalls(chain: seq<Action>, captures: seq<string>, args: seq<string>): seq<Call>
    requires chain != [] && |captures| == Needed(chain)
  {
    if |chain| == 1 then [Call(chain[0], args)]
    else [Call(chain[0], captures[..Taken(chain[0])])] + LinkCalls(chain[1..], captures[Taken(chain[0])..], args)
  }

  /** The captures of a match are dealt out to the links as the match cut them off the path. */
  lemma {:induction false} MatchedCaptures(t: Tables, parts: seq<string>, chain: seq<Action>, captures: seq<string>,
                                           rest: seq<string>, args: seq<string>)
    requires Coherent(t) && Plain(parts) && Linked(chain) && Matches(t, 0, "/", parts, chain, captures, rest)
    requires chain[|chain| - 1].numberOfCaptures <= 0
    ensures |captures| == Needed(chain)
    ensures ChainCalls(chain, 0, 0, captures, args) == LinkCalls(chain, captures, args)
  {
    MatchReassembles(t, 0, "/", parts, chain, captures, rest);
    MatchIsLineage(t, 0, parts, chain, captures, rest);
    LineageDistinct(t, chain);
    MatchIsChained(t, 0, "/", parts, chain, captures, rest);
    assert chain[0..] == chain && captures[0..] == captures;
    DealCaptures(chain, 0, 0, captures, args);
  }

  lemma {:induction false} DealCaptures(chain: seq<Action>, ix: nat, captured: nat, captures: seq<string>,
                                        args: seq<string>)
    requires ix < |chain| && captured <= |captures| && |captures[captured..]| == Needed(chain[ix..])
    requires forall i :: 0 <= i < |chain| - 1 ==> chain[i] != chain[|chain| - 1] && chain[i].IsLink()
    requires !chain[|chain| - 1].IsLink() && chain[|chain| - 1].numberOfCaptures <= 0
    ensures ChainCalls(chain, ix, captured, captures, args) == LinkCalls(chain[ix..], captures[captured..], args)
    decreases |chain| - ix
  {
    hide ChainCalls, LinkCalls, Grab, Needed;
    var line := chain[ix..];
    var own := captures[captured..];
    var n := Taken(chain[ix]);
    assert line[0] == chain[ix] && line[1..] == chain[ix + 1..];
    ChainCallsStep(chain, ix, captured, captures, args);
    if ix + 1 < |chain| {
      assert chain[ix] != chain[|chain| - 1] && chain[ix].IsLink();
      LinkCallsStep(line, own, args);
      GrabExact(chain[ix], captured, captures);
      assert own[n..] == captures[captured + n..];
      DealCaptures(chain, ix + 1, captured + n, captures, args);
    } else {
      ChainCallsEnd(chain, ix + 1, captured + |Grab(chain[ix], captured, captures)|, captures, args);
      LastCall(line, own, args);
    }
  }

  lemma LastCall(chain: seq<Action>, captures: seq<string>, args: seq<string>)
    requires |chain| == 1 && |captures| == Needed(chain)
    ensures LinkCalls(chain, captures, args) == [Call(chain[0], args)]
  {
  }

  lemma ChainCallsStep(chain: seq<Action>, ix: nat, captured: nat, captures: seq<string>, finalArgs: seq<string>)
    requires ix < |chain|
    ensures var args := Grab(chain[ix], captured, captures);
            ChainCalls(chain, ix, captured, captures, finalArgs)
            == [Call(chain[ix], if chain[ix] != chain[|chain| - 1] then args else finalArgs)]
               + ChainCalls(chain, ix + 1, captured + |args|, captures, finalArgs)
  {
  }

  lemma LinkCallsStep(chain: seq<Action>, captures: seq<string>, args: seq<string>)
    requires |chain| > 1 && |captures| == Needed(chain)
    ensures Taken(chain[0]) <= |captures| && |captures[Taken(chain[0])..]| == Needed(chain[1..])
    ensures LinkCalls(chain, captures, args)
            == [Call(chain[0], captures[..Taken(chain[0])])] + LinkCalls(chain[1..], captures[Taken(chain[0])..], args)
  {
  }

  lemma GrabExact(a: Action, captured: nat, captures: seq<string>)
    requires a.IsLink() && captured + Taken(a) <= |captures|
    ensures Grab(a, captured, captures) == captures[captured..][..Taken(a)]
    ensures |Grab(a, captured, captures)| == Taken(a)
  {
  }

  /** The same calls with the same return values need not run the same plan: a failure skips to the End
      action, but once the request has been suspended it drops the End action too, which stays in the queue. */
  lemma SuspensionDropsEnd(a: Action, m: Action, e: Action, args: seq<string>)
    ensures var p := Plan([a], Single(m), Some(e), []);
            var straight: Oracle := n => Outcome(n == 0, 0, false);
            var suspended: Oracle := n => Outcome(n == 0, if n == 0 then 1 else 0, false);
            && RunPlan(straight, p, args).log == [Call(a, args), Call(m, args), Call(e, args)]
            && RunPlan(suspended, p, args).log == [Call(a, args), Call(m, args)]
            && Leftover(suspended, Work([Call(a, args)], 0, 0, args, false), [Single(m), Single(e)], []) == [Single(e)]
  {
    var p := Plan([a], Single(m), Some(e), []);
    var straight: Oracle := n => Outcome(n == 0, 0, false);
    var suspended: Oracle := n => Outcome(n == 0, if n == 0 then 1 else 0, false);
    var s0 := Work([], 0, 0, args, false);
    var s1 := Work([Call(a, args)], 0, 0, args, false);
    assert RunAction(straight, s0, a) == Result(s1, true, 0);
    assert RunAction(suspended, s0, a) == Result(s1, true, 1);
    assert p.beginAuto[1..] == [];
    assert RunBegin(straight, s1, [], p) == RunMain(straight, s1, p);
    assert RunPlan(straight, p, args) == RunMain(straight, s1, p);
    var rest := [Single(m)] + EndList(p);
    assert Singles([]) + [Single(m)] + EndList(p) == rest;
    assert RunPlan(suspended, p, args) == RunResumed(suspended, s1, rest, []);
  }
}
