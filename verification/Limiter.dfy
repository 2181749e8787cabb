/**
 Asynchronous resolvers under a limit.  A channel used as a counting semaphore
 holds one token for the executing goroutine and one for each resolver that is
 running; starting a resolver waits for room in it.

 The executing goroutine is free to start resolvers, wait for results and
 finish in any order; it waits for each result at most once, and resolvers do
 not panic and do not start resolvers themselves.
 */
module Limiter {

  import opened Wrappers

  /** What the executing goroutine is doing; all but Idle and Returned are waits. */
  datatype Executor = Acquiring | Idle | Starting(id: nat) | Awaiting(id: nat) | Finishing | Returned

  /** How far the goroutine of a resolver has got. */
  datatype Phase = Running | Releasing | Sending | Done

  /** A resolver's goroutine, its one-place result channel, and what its Resolution has returned. */
  datatype Task<V> = Task(phase: Phase, result: Option<V>, channel: Option<V>, awaited: bool, returned: Option<V>)

  datatype State<V> = State(tokens: nat, executor: Executor, tasks: map<nat, Task<V>>)

  datatype Event =
    | Acquire
    | WantStart(id: nat) | Start
    | WantAwait(id: nat) | Receive
    | WantFinish | Finish
    | Resolve(id: nat) | Release(id: nat) | Send(id: nat)

  function Initial<V>(): State<V> {
    State(0, Acquiring, map[])
  }

  predicate Enabled<V>(max: nat, s: State<V>, e: Event) {
    match e
    case Acquire => s.executor.Acquiring? && s.tokens < max
    case WantStart(id) => s.executor.Idle? && id !in s.tasks
    case Start => s.executor.Starting? && s.tokens < max
    case WantAwait(id) => s.executor.Idle? && id in s.tasks && !s.tasks[id].awaited
    case Receive => s.executor.Awaiting? && s.executor.id in s.tasks && s.tasks[s.executor.id].channel.Some?
    case WantFinish => s.executor.Idle?
    case Finish => s.executor.Finishing? && s.tokens > 0
    case Resolve(id) => id in s.tasks && s.tasks[id].phase.Running?
    case Release(id) => id in s.tasks && s.tasks[id].phase.Releasing? && s.tokens > 0
    case Send(id) => id in s.tasks && s.tasks[id].phase.Sending? && s.tasks[id].channel.None?
  }

  /** `resolver(id)` is the result of the resolver started as `id`. */
  function Next<V>(resolver: nat -> V, max: nat, s: State<V>, e: Event): State<V>
    requires Enabled(max, s, e)
  {
    match e
    case Acquire => s.(tokens := s.tokens + 1, executor := Idle)
    case WantStart(id) => s.(executor := Starting(id))
    case Start =>
      State(s.tokens + 1, Idle, s.tasks[s.executor.id := Task(Running, None, None, false, None)])
    case WantAwait(id) => s.(executor := Awaiting(id), tasks := s.tasks[id := s.tasks[id].(awaited := true)])
    case Receive =>
      var task := s.tasks[s.executor.id];
      s.(executor := Idle, tasks := s.tasks[s.executor.id := task.(channel := None, returned := task.channel)])
    case WantFinish => s.(executor := Finishing)
    case Finish => s.(tokens := s.tokens - 1, executor := Returned)
    case Resolve(id) =>
      s.(tasks := s.tasks[id := s.tasks[id].(phase := Releasing, result := Some(resolver(id)))])
    case Release(id) =>
      s.(tokens := s.tokens - 1, tasks := s.tasks[id := s.tasks[id].(phase := Sending)])
    case Send(id) =>
      s.(tasks := s.tasks[id := s.tasks[id].(phase := Done, channel := s.tasks[id].result)])
  }

  ghost predicate Run<V>(resolver: nat -> V, max: nat, s: State<V>, events: seq<Event>, t: State<V>)
    decreases |events|
  {
    if events == [] then s == t
    else Enabled(max, s, events[0]) && Run(resolver, max, Next(resolver, max, s, events[0]), events[1..], t)
  }

  // ----- the invariant -----

  predicate HoldsToken<V>(s: State<V>, id: nat) {
    id in s.tasks && (s.tasks[id].phase.Running? || s.tasks[id].phase.Releasing?)
  }

  /** The resolvers that hold a token. */
  function Holding<V>(s: State<V>): set<nat> {
    set id | id in s.tasks && HoldsToken(s, id)
  }

  function Own<V>(s: State<V>): nat {
    if s.executor.Acquiring? || s.executor.Returned? then 0 else 1
  }

  ghost predicate TaskOk<V>(resolver: nat -> V, s: State<V>, id: nat)
    requires id in s.tasks
  {
    var task := s.tasks[id];
    && (task.phase.Running? <==> task.result == None)
    && (task.result.Some? ==> task.result.value == resolver(id))
    && (task.phase != Done ==> task.channel == None && task.returned == None)
    && (task.phase == Done ==>
          (task.channel == task.result && task.returned == None) ||
          (task.channel == None && task.returned == task.result))
    && (task.returned.Some? ==> task.awaited && s.executor != Awaiting(id))
    && (task.awaited && task.returned == None ==> s.executor == Awaiting(id))
  }

  ghost predicate Inv<V>(resolver: nat -> V, max: nat, s: State<V>) {
    && s.tokens == Own(s) + |Holding(s)|
    && s.tokens <= max
    && (forall id :: id in s.tasks ==> TaskOk(resolver, s, id))
    && (s.executor.Starting? ==> s.executor.id !in s.tasks)
    && (s.executor.Awaiting? ==>
          s.executor.id in s.tasks && s.tasks[s.executor.id].awaited && s.tasks[s.executor.id].returned == None)
    && (s.executor.Acquiring? ==> s.tasks == map[])
  }

  lemma HoldsTokenAfter<V>(resolver: nat -> V, max: nat, s: State<V>, e: Event, id: nat)
    requires Enabled(max, s, e) && (s.executor.Starting? ==> s.executor.id !in s.tasks)
    ensures HoldsToken(Next(resolver, max, s, e), id) <==>
            (HoldsToken(s, id) && e != Release(id)) || (e.Start? && id == s.executor.id)
    ensures e == Release(id) ==> HoldsToken(s, id)
    ensures e.Start? ==> !HoldsToken(s, s.executor.id)
  {
  }

  lemma OneMore(a: set<nat>, b: set<nat>, x: nat)
    requires x !in a && forall id: nat :: id in b <==> id in a || id == x
    ensures |b| == |a| + 1
  {
    assert b == a + {x};
  }

  lemma HoldingHas<V>(s: State<V>, id: nat)
    ensures id in Holding(s) <==> HoldsToken(s, id)
  {
  }

  /** How each step changes the number of resolvers that hold a token. */
  lemma HoldingAfter<V>(resolver: nat -> V, max: nat, s: State<V>, e: Event)
    requires Enabled(max, s, e) && (s.executor.Starting? ==> s.executor.id !in s.tasks)
    ensures |Holding(Next(resolver, max, s, e))| ==
            if e.Start? then |Holding(s)| + 1 else if e.Release? then |Holding(s)| - 1 else |Holding(s)|
  {
    hide Next, Holding;
    var t := Next(resolver, max, s, e);
    var before, after := Holding(s), Holding(t);
    forall id: nat
      ensures id in after <==> (id in before && e != Release(id)) || (e.Start? && id == s.executor.id)
      ensures e == Release(id) ==> id in before
      ensures e.Start? && id == s.executor.id ==> id !in before
    {
      HoldsTokenAfter(resolver, max, s, e, id);
      HoldingHas(s, id);
      HoldingHas(t, id);
    }
    if e.Start? {
      OneMore(before, after, s.executor.id);
    } else if e.Release? {
      OneMore(after, before, e.id);
    } else {
      assert after == before;
    }
  }

  lemma NextKeepsInv<V>(resolver: nat -> V, max: nat, s: State<V>, e: Event)
    requires Inv(resolver, max, s) && Enabled(max, s, e)
    ensures Inv(resolver, max, Next(resolver, max, s, e))
  {
    hide Holding;
    HoldingAfter(resolver, max, s, e);
    var t := Next(resolver, max, s, e);
    forall id | id in t.tasks
      ensures TaskOk(resolver, t, id)
    {
      assert id in s.tasks ==> TaskOk(resolver, s, id);
    }
  }

  lemma {:induction false} RunKeepsInv<V>(resolver: nat -> V, max: nat, s: State<V>, events: seq<Event>, t: State<V>)
    requires Inv(resolver, max, s) && Run(resolver, max, s, events, t)
    ensures Inv(resolver, max, t)
    decreases |events|
  {
    if events != [] {
      NextKeepsInv(resolver, max, s, events[0]);
      RunKeepsInv(resolver, max, Next(resolver, max, s, events[0]), events[1..], t);
    }
  }

  ghost predicate Reachable<V>(resolver: nat -> V, max: nat, s: State<V>) {
    exists events :: Run(resolver, max, Initial(), events, s)
  }

  lemma ReachableInv<V>(resolver: nat -> V, max: nat, s: State<V>)
    requires Reachable(resolver, max, s)
    ensures Inv(resolver, max, s)
  {
    var events :| Run(resolver, max, Initial(), events, s);
    assert Holding(Initial<V>()) == {};
    RunKeepsInv(resolver, max, Initial(), events, s);
  }

  /** While the executor works there is one token more than resolvers running, and never more than the limit. */
  lemma TokensCountRunning<V>(resolver: nat -> V, max: nat, s: State<V>)
    requires Reachable(resolver, max, s)
    ensures s.tokens <= max
    ensures s.tokens == |Holding(s)| + (if s.executor.Acquiring? || s.executor.Returned? then 0 else 1)
  {
    ReachableInv(resolver, max, s);
  }

  /** Each Resolution returns its own resolver's result. */
  lemma ResolutionsReturnTheirResults<V>(resolver: nat -> V, max: nat, s: State<V>, id: nat)
    requires Reachable(resolver, max, s) && id in s.tasks && s.tasks[id].returned.Some?
    ensures s.tasks[id].returned.value == resolver(id)
  {
    ReachableInv(resolver, max, s);
    assert TaskOk(resolver, s, id);
  }

  /** Once Execute has returned, the tokens left are those of resolvers nobody waited for, so none is left
      if every collected resolution was executed. */
  lemma LimiterIsEmptyAfterwards<V>(resolver: nat -> V, max: nat, s: State<V>)
    requires Reachable(resolver, max, s) && s.executor.Returned?
    ensures s.tokens == |Holding(s)|
    ensures (forall id :: id in s.tasks ==> s.tasks[id].returned.Some?) ==> s.tokens == 0
  {
    ReachableInv(resolver, max, s);
    if forall id :: id in s.tasks ==> s.tasks[id].returned.Some? {
      forall id | id in s.tasks
        ensures id !in Holding(s)
      {
        assert TaskOk(resolver, s, id);
      }
      assert Holding(s) == {};
    }
  }

  // ----- deadlock -----

  ghost predicate Stuck<V>(max: nat, s: State<V>) {
    && !s.executor.Returned?
    && forall e :: !Enabled(max, s, e)
  }

  lemma {:induction false} PickHolder(ids: set<nat>) returns (id: nat)
    requires |ids| > 0
    ensures id in ids
  {
    id :| id in ids;
  }

  /** With room for at least one resolver beside the executor, something can always happen. */
  lemma NeverStuck<V>(resolver: nat -> V, max: nat, s: State<V>)
    requires Reachable(resolver, max, s) && max >= 2
    ensures !Stuck(max, s)
  {
    ReachableInv(resolver, max, s);
    match s.executor
    case Acquiring => assert Holding(s) == {}; assert Enabled(max, s, Acquire);
    case Idle => assert Enabled(max, s, WantFinish);
    case Starting(_) =>
      if s.tokens < max {
        assert Enabled(max, s, Start);
      } else {
        var id := PickHolder(Holding(s));
        assert Enabled(max, s, Resolve(id)) || Enabled(max, s, Release(id));
      }
    case Awaiting(id) =>
      assert TaskOk(resolver, s, id);
      assert Enabled(max, s, Resolve(id)) || Enabled(max, s, Release(id)) || Enabled(max, s, Send(id)) ||
             Enabled(max, s, Receive) by {
        if s.tasks[id].phase.Releasing? {
          assert id in Holding(s);
        }
      }
    case Finishing => assert Enabled(max, s, Finish);
    case Returned =>
  }

  /** With room for the executor alone, or for nothing, it gets stuck: the first resolver it starts waits
      for a token that only the executor could give back. */
  lemma GetsStuck<V>(resolver: nat -> V, max: nat) returns (s: State<V>)
    requires max < 2
    ensures Reachable(resolver, max, s) && Stuck(max, s)
  {
    if max == 0 {
      s := Initial();
      assert Run(resolver, max, Initial(), [], s);
    } else {
      s := State(1, Starting(0), map[]);
      var events := [Acquire, WantStart(0)];
      var s1 := Next(resolver, max, Initial(), Acquire);
      assert events[1..] == [WantStart(0)] && [WantStart(0)][1..] == [];
      assert Run(resolver, max, s, [], s);
      assert Run(resolver, max, s1, [WantStart(0)], s);
      assert Run(resolver, max, Initial(), events, s);
    }
  }

  /** The limit is safe exactly if it is at least two. */
  lemma SafeIffTwo<V>(resolver: nat -> V, max: nat)
    ensures (forall s: State<V> :: Reachable(resolver, max, s) ==> !Stuck(max, s)) <==> max >= 2
  {
    if max >= 2 {
      forall s: State<V> | Reachable(resolver, max, s)
        ensures !Stuck(max, s)
      {
        NeverStuck(resolver, max, s);
      }
    } else {
      var s := GetsStuck(resolver, max);
    }
  }

  // ----- waiting ends -----

  predicate ResolverMove(e: Event) {
    e.Resolve? || e.Release? || e.Send?
  }

  function InPhase<V>(s: State<V>, p: Phase): (r: set<nat>)
    ensures forall id :: id in r <==> id in s.tasks && s.tasks[id].phase == p
  {
    set id | id in s.tasks && s.tasks[id].phase == p
  }

  /** How many moves the resolvers that were started have left. */
  function Work<V>(s: State<V>): nat {
    3 * |InPhase(s, Running)| + 2 * |InPhase(s, Releasing)| + |InPhase(s, Sending)|
  }

  lemma OneLess(a: set<nat>, b: set<nat>, x: nat)
    requires x in a && forall id: nat :: id in b <==> id in a && id != x
    ensures |b| == |a| - 1
  {
    assert b == a - {x};
  }

  lemma ResolverMovesUseWork<V>(resolver: nat -> V, max: nat, s: State<V>, e: Event)
    requires Enabled(max, s, e) && ResolverMove(e)
    ensures Work(Next(resolver, max, s, e)) == Work(s) - 1 && Next(resolver, max, s, e).executor == s.executor
  {
    var t := Next(resolver, max, s, e);
    forall p
      ensures forall id :: id != e.id ==> (id in InPhase(t, p) <==> id in InPhase(s, p))
    {
    }
    match e {
      case Resolve(id) =>
        OneLess(InPhase(s, Running), InPhase(t, Running), id);
        OneMore(InPhase(s, Releasing), InPhase(t, Releasing), id);
        assert InPhase(t, Sending) == InPhase(s, Sending);
      case Release(id) =>
        OneLess(InPhase(s, Releasing), InPhase(t, Releasing), id);
        OneMore(InPhase(s, Sending), InPhase(t, Sending), id);
        assert InPhase(t, Running) == InPhase(s, Running);
      case Send(id) =>
        OneLess(InPhase(s, Sending), InPhase(t, Sending), id);
        assert InPhase(t, Running) == InPhase(s, Running) && InPhase(t, Releasing) == InPhase(s, Releasing);
    }
  }

  /** The move an executor waits to make. */
  function Awaited(e: Executor): Event
    requires !e.Idle? && !e.Returned?
  {
    match e
    case Acquiring => Acquire
    case Starting(_) => Start
    case Awaiting(_) => Receive
    case Finishing => Finish
  }

  lemma QuietTask<V>(max: nat, s: State<V>, id: nat)
    requires id in s.tasks && !Enabled(max, s, Resolve(id)) && !Enabled(max, s, Release(id)) &&
             !Enabled(max, s, Send(id))
    requires s.tokens > 0 && (s.tasks[id].phase != Done ==> s.tasks[id].channel == None)
    ensures s.tasks[id].phase.Done?
  {
  }

  /** Where no resolver can move, none holds a token, and the executor can make the move it waits for. */
  lemma QuietMeansFree<V>(resolver: nat -> V, max: nat, s: State<V>)
    requires Inv(resolver, max, s) && max >= 2 && !s.executor.Idle? && !s.executor.Returned?
    requires forall e :: ResolverMove(e) ==> !Enabled(max, s, e)
    ensures Enabled(max, s, Awaited(s.executor))
  {
    forall id | id in s.tasks
      ensures s.tasks[id].phase.Done?
    {
      assert TaskOk(resolver, s, id);
      assert ResolverMove(Resolve(id)) && ResolverMove(Release(id)) && ResolverMove(Send(id));
      QuietTask(max, s, id);
    }
    assert Holding(s) == {};
    if s.executor.Awaiting? {
      assert TaskOk(resolver, s, s.executor.id);
    }
  }

  lemma {:induction false} MovesRunOut<V>(resolver: nat -> V, max: nat, s: State<V>, events: seq<Event>, t: State<V>)
    requires Inv(resolver, max, s) && max >= 2 && !s.executor.Idle? && !s.executor.Returned?
    requires Run(resolver, max, s, events, t) && forall k :: 0 <= k < |events| ==> ResolverMove(events[k])
    ensures |events| + Work(t) == Work(s) && t.executor == s.executor
    ensures (forall e :: ResolverMove(e) ==> !Enabled(max, t, e)) ==> Enabled(max, t, Awaited(t.executor))
    decreases |events|
  {
    hide Work, Inv, Next, Enabled;
    if events == [] {
      if forall e :: ResolverMove(e) ==> !Enabled(max, t, e) {
        QuietMeansFree(resolver, max, t);
      }
    } else {
      assert ResolverMove(events[0]);
      ResolverMovesUseWork(resolver, max, s, events[0]);
      NextKeepsInv(resolver, max, s, events[0]);
      MovesRunOut(resolver, max, Next(resolver, max, s, events[0]), events[1..], t);
    }
  }

  /** A waiting executor goes on: from every reachable state the resolvers make at most Work(s) moves, in whatever
      order, and when none of them can move the executor can. */
  lemma WaitingEnds<V>(resolver: nat -> V, max: nat, s: State<V>, events: seq<Event>, t: State<V>)
    requires Reachable(resolver, max, s) && max >= 2 && !s.executor.Idle? && !s.executor.Returned?
    requires Run(resolver, max, s, events, t) && forall k :: 0 <= k < |events| ==> ResolverMove(events[k])
    ensures |events| <= Work(s) && t.executor == s.executor
    ensures (forall e :: ResolverMove(e) ==> !Enabled(max, t, e)) ==> Enabled(max, t, Awaited(t.executor))
  {
    ReachableInv(resolver, max, s);
    MovesRunOut(resolver, max, s, events, t);
  }
}
