/** One delivery, start to end: claim, hooks, subscribers, outcome, release, disposition. */
module Dispatch {
  import opened Wrappers
  import opened ClaimStore
  import opened Outcomes

  datatype Stage = OnReceive | OnDuplicate | OnRetry(errors: seq<int>) | OnDeadLetter(errors: seq<int>) | OnComplete

  /** What the surroundings do during the delivery: the clock, the subscribers' results, which hooks
      and which calls on the acknowledger raise inside the dispatch. */
  datatype World = World(
    now: real,
    results: seq<SubscriberResult>,
    hookRaises: (nat, Stage) -> bool,
    ackRaises: Disposition -> bool)

  /** The terminal stage that reports an outcome. */
  function StageOf(o: Outcome): Stage {
    match o
    case Success => OnComplete
    case Retry(errors) => OnRetry(errors)
    case Failure(errors) => OnDeadLetter(errors)
  }

  /** Every hook hears the stage, in order. */
  function Announced(hooks: nat, stage: Stage): seq<(nat, Stage)> {
    seq(hooks, i => (i, stage))
  }

  /** What the hooks hear of a delivery: a duplicate, or its receipt and, if it was served, its outcome. */
  function Told(hooks: nat, refused: bool, served: bool, outcome: Outcome): seq<(nat, Stage)> {
    if refused then Announced(hooks, OnDuplicate)
    else Announced(hooks, OnReceive) + (if served then Announced(hooks, StageOf(outcome)) else [])
  }

  /** The calls on hooks that raise, in order. */
  function Raising(world: World, told: seq<(nat, Stage)>): seq<(nat, Stage)> {
    if told == [] then []
    else
      var last := told[|told| - 1];
      Raising(world, told[..|told| - 1]) + (if world.hookRaises(last.0, last.1) then [last] else [])
  }

  lemma {:induction false} RaisingJoins(world: World, a: seq<(nat, Stage)>, b: seq<(nat, Stage)>)
    ensures Raising(world, a + b) == Raising(world, a) + Raising(world, b)
  {
    if b == [] {
      assert a + b == a;
    } else {
      assert (a + b)[..|a + b| - 1] == a + b[..|b| - 1];
      RaisingJoins(world, a, b[..|b| - 1]);
    }
  }

  class EventConsumer {
    const store: InMemoryIdempotencyStore
    const ttl: Option<real>
    var subscribers: seq<string>
    var hooks: nat
    var runs: nat                             // how often the subscribers were run
    var dispositions: seq<Disposition>        // calls on the acknowledger
    var heard: seq<(nat, Stage)>              // stages each hook was told
    var warned: seq<(nat, Stage)>             // calls on hooks that raised and were logged

    constructor (store: InMemoryIdempotencyStore, ttl: Option<real>, subscribers: seq<string>, hooks: nat)
      ensures this.store == store && this.ttl == ttl && this.subscribers == subscribers && this.hooks == hooks
      ensures runs == 0 && dispositions == [] && heard == [] && warned == []
    {
      this.store, this.ttl, this.subscribers, this.hooks := store, ttl, subscribers, hooks;
      runs, dispositions, heard, warned := 0, [], [], [];
    }

    /** A call on a hook. */
    method Tell(i: nat, stage: Stage, world: World) returns (raised: bool)
      modifies this`heard
      ensures heard == old(heard) + [(i, stage)] && raised == world.hookRaises(i, stage)
    {
      heard := heard + [(i, stage)];
      raised := world.hookRaises(i, stage);
    }

    /** `_notify_hooks`: what a hook raises is caught and logged, and the next one is told. */
    method NotifyHooks(stage: Stage, world: World)
      modifies this`heard, this`warned
      ensures heard == old(heard) + Announced(hooks, stage)
      ensures warned == old(warned) + Raising(world, Announced(hooks, stage))
    {
      for i := 0 to hooks
        invariant heard == old(heard) + Announced(i, stage)
        invariant warned == old(warned) + Raising(world, Announced(i, stage))
      {
        var raised := Tell(i, stage, world);
        if raised {
          warned := warned + [(i, stage)];
        }
        assert Announced(i + 1, stage)[..i] == Announced(i, stage);
      }
    }

    /** A call on the acknowledger. */
    method Dispose(d: Disposition, world: World) returns (raised: bool)
      modifies this`dispositions
      ensures dispositions == old(dispositions) + [d] && raised == world.ackRaises(d)
    {
      dispositions := dispositions + [d];
      raised := world.ackRaises(d);
    }

    /** `_execute_subscribers`: the results keyed by subscriber name. */
    method ExecuteSubscribers(world: World) returns (results: seq<SubscriberResult>)
      requires |world.results| == |subscribers|
      modifies this`runs
      ensures runs == old(runs) + 1
      ensures results == ResultsOf(Keyed(subscribers, world.results))
    {
      runs := runs + 1;
      var entries: Entries := [];
      for i := 0 to |subscribers|
        invariant entries == Keyed(subscribers[..i], world.results[..i])
      {
        entries := Store(entries, subscribers[i], world.results[i]);
        assert subscribers[..i + 1][..i] == subscribers[..i] && world.results[..i + 1][..i] == world.results[..i];
      }
      assert subscribers[..|subscribers|] == subscribers && world.results[..|world.results|] == world.results;
      results := ResultsOf(entries);
    }

    /** `_handle_outcome`. */
    method HandleOutcome(outcome: Outcome, world: World) returns (raised: bool)
      modifies this`heard, this`warned, this`dispositions
      ensures heard == old(heard) + Announced(hooks, StageOf(outcome))
      ensures warned == old(warned) + Raising(world, Announced(hooks, StageOf(outcome)))
      ensures dispositions == old(dispositions) + [DispositionOf(outcome)]
      ensures raised == world.ackRaises(DispositionOf(outcome))
    {
      match outcome
      case Retry(errors) =>
        NotifyHooks(OnRetry(errors), world);
        raised := Dispose(RetryLater, world);
      case Failure(errors) =>
        NotifyHooks(OnDeadLetter(errors), world);
        raised := Dispose(DeadLetter, world);
      case Success =>
        NotifyHooks(OnComplete, world);
        raised := Dispose(Ack, world);
    }

    /** The subscribers run, the claim is given up unless all succeed, and the outcome is handled. */
    method Serve(key: Option<string>, world: World) returns (raised: bool)
      requires |world.results| == |subscribers| && Distinct(subscribers)
      modifies this`runs, this`dispositions, this`heard, this`warned, store
      ensures var outcome := Resolve(world.results);
              && dispositions == old(dispositions) + [DispositionOf(outcome)]
              && raised == world.ackRaises(DispositionOf(outcome))
              && heard == old(heard) + Announced(hooks, StageOf(outcome))
              && warned == old(warned) + Raising(world, Announced(hooks, StageOf(outcome)))
              && store.claims == if key.Some? && outcome != Success
                                 then Released(old(store.claims), key.value) else old(store.claims)
      ensures runs == old(runs) + 1
    {
      var results := ExecuteSubscribers(world);
      KeyedWhenDistinct(subscribers, world.results);
      assert results == world.results;
      var outcome := DetermineOutcome(results);
      if key.Some? && outcome != Success {
        store.Release(key.value);
      }
      raised := HandleOutcome(outcome, world);
    }

    /** The part of `_dispatch` inside its try: a claim that is won is given up unless the outcome is a
        success, and also when a call raises. */
    method Process(key: Option<string>, world: World) returns (raised: bool)
      requires |world.results| == |subscribers| && Distinct(subscribers)
      modifies this`runs, this`dispositions, this`heard, this`warned, store
      ensures var outcome := Resolve(world.results);
              var told := Told(hooks, false, subscribers != [], outcome);
              && dispositions == old(dispositions) + [DispositionOf(outcome)]
              && raised == world.ackRaises(DispositionOf(outcome))
              && heard == old(heard) + told
              && warned == old(warned) + Raising(world, told)
              && store.claims == if key.Some? && (outcome != Success || raised)
                                 then Released(old(store.claims), key.value) else old(store.claims)
      ensures runs == old(runs) + (if subscribers == [] then 0 else 1)
    {
      hide Announced, Raising;
      NotifyHooks(OnReceive, world);
      ghost var received := Announced(hooks, OnReceive);
      if subscribers == [] {
        raised := Dispose(Ack, world);
        assert received == Told(hooks, false, false, Resolve(world.results));
      } else {
        raised := Serve(key, world);
        RaisingJoins(world, received, Announced(hooks, StageOf(Resolve(world.results))));
      }
      if raised && key.Some? {
        store.Release(key.value);
      }
    }

    /** `_dispatch`. Whatever the hooks raise, it makes exactly one call on the acknowledger: a refused claim
        is acknowledged without running a subscriber, otherwise the disposition is the one of the most
        severe result, after the one terminal stage that reports it. The claim stays exactly if the outcome
        is a success, or there is no subscriber, and the acknowledgement does not raise. */
    method Dispatch(key: Option<string>, world: World) returns (raised: bool)
      requires |world.results| == |subscribers| && Distinct(subscribers)
      modifies this`runs, this`dispositions, this`heard, this`warned, store
      ensures var refused := key.Some? && Held(old(store.claims), key.value, world.now);
              var outcome := Resolve(world.results);
              var verdict := if refused then Ack else DispositionOf(outcome);
              var told := Told(hooks, refused, subscribers != [], outcome);
              && dispositions == old(dispositions) + [verdict]
              && raised == world.ackRaises(verdict)
              && runs == old(runs) + (if refused || subscribers == [] then 0 else 1)
              && heard == old(heard) + told
              && warned == old(warned) + Raising(world, told)
              && store.claims == (
                   if key.None? || refused then old(store.claims)
                   else
                     var claimed := Claimed(old(store.claims), key.value, world.now, ttl, store.maxEntries);
                     if outcome == Success && !raised then claimed else Released(claimed, key.value))
    {
      if key.Some? {
        var won := store.Claim(key.value, ttl, world.now);
        if !won {
          NotifyHooks(OnDuplicate, world);
          raised := Dispose(Ack, world);
          return;
        }
      }
      raised := Process(key, world);
    }

    /** `_process_message`: what leaves the dispatch, or the key function before it, dead-letters the message
        once more and is raised again. So there is one call on the acknowledger, and a second one, to
        dead-letter, exactly after a raise; a raising key function touches neither claims nor subscribers.
        A success that is acknowledged keeps its claim; a retry, a failure and a raise give it up; a refused
        delivery leaves the holder's. */
    method ProcessMessage(lookup: Result<Option<string>, int>, world: World) returns (raised: bool)
      requires |world.results| == |subscribers| && Distinct(subscribers)
      modifies this`runs, this`dispositions, this`heard, this`warned, store
      ensures var key := if lookup.Ok? then lookup.value else None;
              var refused := key.Some? && Held(old(store.claims), key.value, world.now);
              var verdict := if refused then Ack else DispositionOf(Resolve(world.results));
              && raised == (lookup.Err? || world.ackRaises(verdict))
              && dispositions == old(dispositions) + (if lookup.Err? then [DeadLetter]
                                                      else if raised then [verdict, DeadLetter] else [verdict])
              && runs == old(runs) + (if lookup.Err? || refused || subscribers == [] then 0 else 1)
              && store.claims == (
                   if key.None? || refused then old(store.claims)
                   else
                     var claimed := Claimed(old(store.claims), key.value, world.now, ttl, store.maxEntries);
                     if verdict == Ack && !raised then claimed else claimed - {key.value})
      ensures var refused := lookup.Ok? && lookup.value.Some? && Held(old(store.claims), lookup.value.value, world.now);
              var told := if lookup.Err? then []
                          else Told(hooks, refused, subscribers != [], Resolve(world.results));
              heard == old(heard) + told && warned == old(warned) + Raising(world, told)
    {
      if lookup.Ok? {
        raised := Dispatch(lookup.value, world);
      } else {
        raised := true;
      }
      if raised {
        var _ := Dispose(DeadLetter, world);
      }
    }
  }

  /** What one hook hears, in order. */
  function HeardBy(hook: nat, told: seq<(nat, Stage)>): seq<Stage> {
    if told == [] then []
    else HeardBy(hook, told[..|told| - 1]) + (if told[|told| - 1].0 == hook then [told[|told| - 1].1] else [])
  }

  lemma {:induction false} HeardOnce(hook: nat, hooks: nat, before: seq<(nat, Stage)>, stage: Stage)
    ensures HeardBy(hook, before + Announced(hooks, stage)) ==
            HeardBy(hook, before) + (if hook < hooks then [stage] else [])
  {
    if hooks == 0 {
      assert before + Announced(hooks, stage) == before;
    } else {
      var all := before + Announced(hooks, stage);
      assert all[..|all| - 1] == before + Announced(hooks - 1, stage);
      HeardOnce(hook, hooks - 1, before, stage);
    }
  }

  /** Every hook hears the same: that a duplicate was refused, or that a message was received, followed, if
      subscribers ran, by the stage of the outcome. */
  lemma EveryHookHears(hooks: nat, hook: nat, refused: bool, served: bool, outcome: Outcome)
    requires hook < hooks
    ensures HeardBy(hook, Told(hooks, refused, served, outcome)) ==
            if refused then [OnDuplicate]
            else if !served then [OnReceive]
            else match outcome
              case Success => [OnReceive, OnComplete]
              case Retry(errors) => [OnReceive, OnRetry(errors)]
              case Failure(errors) => [OnReceive, OnDeadLetter(errors)]
  {
    hide Announced, HeardBy;
    assert HeardBy(hook, []) == [] by { NobodyHears(hook); }
    var first := if refused then OnDuplicate else OnReceive;
    assert [] + Announced(hooks, first) == Announced(hooks, first);
    HeardOnce(hook, hooks, [], first);
    if !refused {
      if served { HeardOnce(hook, hooks, Announced(hooks, OnReceive), StageOf(outcome)); }
      assert Announced(hooks, OnReceive) + [] == Announced(hooks, OnReceive);
    }
  }

  lemma NobodyHears(hook: nat)
    ensures HeardBy(hook, []) == []
  {
  }

  /** The carried error lists are those of the results, and there is one terminal stage for each outcome. */
  lemma StageReportsResults(results: seq<SubscriberResult>, e: int)
    ensures StageOf(Resolve(results)) == OnComplete <==>
            forall i | 0 <= i < |results| :: results[i] == Handled
    ensures StageOf(Resolve(results)).OnRetry? ==>
              (e in StageOf(Resolve(results)).errors <==> Retryable(e) in results)
    ensures StageOf(Resolve(results)).OnDeadLetter? ==>
              && (e in StageOf(Resolve(results)).errors <==> Raised(e) in results)
              && forall i | 0 <= i < |results| :: !results[i].Retryable?
  {
    ErrorsAreComplete(results, e);
    OutcomeBySeverity(results);
    if forall i | 0 <= i < |results| :: results[i] == Handled {
      assert Resolve(results) == Success;
    }
  }
}
