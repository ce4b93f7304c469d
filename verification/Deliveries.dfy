/** What one delivery or redrive does to the queues and claims when it runs to its end undisturbed. */
module Deliveries {
  import opened Wrappers
  import opened ClaimStore
  import opened Outcomes
  import opened Ledgers
  import opened Protocol

  /** The step's calls on the outside succeed. */
  predicate Smooth(step: Step) {
    match step
    case LookupFails(_) => false
    case AckMessage(_, effect, raises) => effect && !raises
    case RetryMessage(_, raises) => !raises
    case SendToDlq(_, _, _, result) => result == Sent
    case _ => true
  }

  /** The delivery takes these steps, all smooth, one after the other, and leads from one state to the other. */
  ghost predicate Solo(cfg: Config, s: State, t: TaskId, steps: seq<Step>, end: State)
    decreases |steps|
  {
    if steps == [] then end == s
    else
      && Enabled(cfg, s, steps[0]) && Mover(steps[0]) == Some(t) && !steps[0].Receive? && Smooth(steps[0])
      && Solo(cfg, Take(cfg, s, steps[0]), t, steps[1..], end)
  }

  /** It does so until the delivery is over. */
  ghost predicate RunsOut(cfg: Config, s: State, t: TaskId, steps: seq<Step>, end: State) {
    t in s.tasks && Solo(cfg, s, t, steps, end) && t !in end.tasks
  }

  lemma NothingFollows(cfg: Config, s: State, t: TaskId, steps: seq<Step>, end: State)
    requires Solo(cfg, s, t, steps, end) && t !in s.tasks
    ensures steps == [] && end == s
  {
  }

  /** One step of a delivery that runs out. */
  lemma FirstStep(cfg: Config, s: State, t: TaskId, steps: seq<Step>, end: State) returns (s': State)
    requires RunsOut(cfg, s, t, steps, end)
    ensures steps != [] && Enabled(cfg, s, steps[0]) && Mover(steps[0]) == Some(t)
    ensures !steps[0].Receive? && Smooth(steps[0]) && s' == Take(cfg, s, steps[0])
    ensures if t in s'.tasks then RunsOut(cfg, s', t, steps[1..], end) else end == s'
  {
    s' := Take(cfg, s, steps[0]);
    if t !in s'.tasks { NothingFollows(cfg, s', t, steps[1..], end); }
  }

  /** The delivery is over; nothing else changed. */
  function Ended(s: State, t: TaskId): State {
    s.(tasks := s.tasks - {t})
  }

  /** Its message is deleted: acknowledged, or moved after a copy was sent. */
  function Deleted(s: State, m: MessageId, copied: bool): State {
    var l := s.ledger;
    s.(source := s.source - {m},
       ledger := if m !in s.source then l
                 else if copied then l.(moved := l.moved + 1) else l.(consumed := l.consumed + 1))
  }

  /** A copy of the event is in the dead letters. */
  function DeadLettered(s: State, d: MessageId, e: Event): State {
    s.(dlq := s.dlq[d := e], ledger := s.ledger.(sent := s.ledger.sent + 1))
  }

  /** The claim of the key, if there is one, is free. */
  function Freed(s: State, key: Option<string>): State {
    if key.Some? then s.(claims := s.claims - {key.value}) else s
  }

  /** A delivery that is to be acknowledged deletes its message and is over. */
  lemma AckEnds(cfg: Config, s: State, t: TaskId, steps: seq<Step>, end: State)
    requires RunsOut(cfg, s, t, steps, end)
    requires s.tasks[t].pc == Duplicate || s.tasks[t].pc == Unheard || s.tasks[t].pc == Settling(Ack)
             || s.tasks[t].pc.Diverted?
    ensures end == Ended(Deleted(s, s.tasks[t].message, s.tasks[t].pc.Diverted?), t)
  {
    var s' := FirstStep(cfg, s, t, steps, end);
  }

  /** A delivery that is to be retried is over, and its message stays. */
  lemma RetryEnds(cfg: Config, s: State, t: TaskId, steps: seq<Step>, end: State)
    requires RunsOut(cfg, s, t, steps, end) && s.tasks[t].pc == Settling(RetryLater)
    ensures end == Ended(s, t)
  {
    var s' := FirstStep(cfg, s, t, steps, end);
  }

  /** A delivery that is to be dead-lettered moves its event to the dead letters; without a dead-letter queue
      its message stays. */
  lemma DeadLetterEnds(cfg: Config, s: State, t: TaskId, steps: seq<Step>, end: State)
    requires RunsOut(cfg, s, t, steps, end)
    requires s.tasks[t].pc == Settling(DeadLetter) || s.tasks[t].pc == Fallback
    ensures !cfg.hasDlq ==> end == Ended(s, t)
    ensures cfg.hasDlq ==> exists d | FreshLetter(s, d) ::
              end == Ended(Deleted(DeadLettered(s, d, s.tasks[t].copy.event), s.tasks[t].message, true), t)
  {
    var s' := FirstStep(cfg, s, t, steps, end);
    if cfg.hasDlq {
      AckEnds(cfg, s', t, steps[1..], end);
      var d := steps[0].d;
      assert end == Ended(Deleted(DeadLettered(s, d, s.tasks[t].copy.event), s.tasks[t].message, true), t);
    }
  }

  /** What a disposition leads to. */
  ghost predicate EndsBy(cfg: Config, s: State, t: TaskId, disposition: Disposition, end: State)
    requires t in s.tasks
  {
    var (m, e) := (s.tasks[t].message, s.tasks[t].copy.event);
    match disposition
    case Ack => end == Ended(Deleted(s, m, false), t)
    case RetryLater => end == Ended(s, t)
    case DeadLetter =>
      if cfg.hasDlq then exists d | FreshLetter(s, d) :: end == Ended(Deleted(DeadLettered(s, d, e), m, true), t)
      else end == Ended(s, t)
  }

  lemma SettlingEnds(cfg: Config, s: State, t: TaskId, steps: seq<Step>, end: State)
    requires RunsOut(cfg, s, t, steps, end) && s.tasks[t].pc.Settling?
    ensures EndsBy(cfg, s, t, s.tasks[t].pc.disposition, end)
  {
    match s.tasks[t].pc.disposition
    case Ack => AckEnds(cfg, s, t, steps, end);
    case RetryLater => RetryEnds(cfg, s, t, steps, end);
    case DeadLetter => DeadLetterEnds(cfg, s, t, steps, end);
  }

  /** The states differ only in where the delivery is. */
  ghost predicate Alike(a: State, b: State, t: TaskId) {
    && t in a.tasks && t in b.tasks && b == a.(tasks := b.tasks) && b.tasks - {t} == a.tasks - {t}
    && b.tasks[t].message == a.tasks[t].message && b.tasks[t].copy == a.tasks[t].copy
  }

  lemma EndsAlike(cfg: Config, a: State, b: State, t: TaskId, disposition: Disposition, end: State)
    requires Alike(a, b, t) && EndsBy(cfg, b, t, disposition, end)
    ensures EndsBy(cfg, a, t, disposition, end)
  {
    var (m, e) := (a.tasks[t].message, a.tasks[t].copy.event);
    match disposition
    case Ack => DeletedAlike(a, b, t, m, false);
    case RetryLater =>
    case DeadLetter =>
      if cfg.hasDlq {
        var d :| FreshLetter(b, d) && end == Ended(Deleted(DeadLettered(b, d, e), m, true), t);
        DeletedAlike(DeadLettered(a, d, e), DeadLettered(b, d, e), t, m, true);
        assert FreshLetter(a, d);
      }
  }

  lemma DeletedAlike(a: State, b: State, t: TaskId, m: MessageId, copied: bool)
    requires b == a.(tasks := b.tasks) && b.tasks - {t} == a.tasks - {t}
    ensures Ended(Deleted(a, m, copied), t) == Ended(Deleted(b, m, copied), t)
  {
  }

  // ----- A delivery whose subscribers run -----

  /** Every subscriber succeeded: the event is done, and its key settled. */
  function Succeeded(s: State, copy: Copy, owner: map<string, Claimer>): State {
    s.(done := s.done + {copy.event},
       settled := if copy.key.Some? then s.settled + {copy.key.value} else s.settled,
       owner := owner)
  }

  lemma ReleaseMoves(cfg: Config, s: State, t: TaskId)
    requires Enabled(cfg, s, ReleaseKey(t))
    ensures var s' := Take(cfg, s, ReleaseKey(t));
            && Alike(Freed(s, s.tasks[t].copy.key), s', t)
            && s'.tasks[t].pc == if s.tasks[t].pc.Releasing? then Settling(s.tasks[t].pc.disposition) else Fallback
  {
  }

  /** The release of a claim, and then what the disposition leads to. */
  lemma ReleasingEnds(cfg: Config, s: State, t: TaskId, steps: seq<Step>, end: State)
    requires RunsOut(cfg, s, t, steps, end) && s.tasks[t].pc.Releasing?
    ensures EndsBy(cfg, Freed(s, s.tasks[t].copy.key), t, s.tasks[t].pc.disposition, end)
  {
    hide EndsBy, Take;
    var s' := FirstStep(cfg, s, t, steps, end);
    assert steps[0] == ReleaseKey(t);
    ReleaseMoves(cfg, s, t);
    SettlingEnds(cfg, s', t, steps[1..], end);
    EndsAlike(cfg, Freed(s, s.tasks[t].copy.key), s', t, s.tasks[t].pc.disposition, end);
  }

  /** What the results ask for: a retry if some is retryable, else dead-lettering if some failed. */
  ghost predicate AsksFor(results: seq<SubscriberResult>, disposition: Disposition) {
    match disposition
    case RetryLater => exists i | 0 <= i < |results| :: results[i].Retryable?
    case DeadLetter =>
      && (forall i | 0 <= i < |results| :: !results[i].Retryable?)
      && exists i | 0 <= i < |results| :: results[i].Raised?
    case Ack => forall i | 0 <= i < |results| :: results[i] == Handled
  }

  lemma FinishMoves(cfg: Config, s: State, t: TaskId, results: seq<SubscriberResult>, disposition: Disposition)
    requires Enabled(cfg, s, Finish(t, results)) && AsksFor(results, disposition)
    ensures var (key, s') := (s.tasks[t].copy.key, Take(cfg, s, Finish(t, results)));
            && Alike(if disposition == Ack then Succeeded(s, s.tasks[t].copy, s'.owner) else s, s', t)
            && s'.tasks[t].pc ==
               if disposition != Ack && key.Some? then Releasing(disposition) else Settling(disposition)
  {
    OutcomeBySeverity(results);
    assert DispositionOf(Resolve(results)) == disposition;
  }

  /** From running subscribers to the end: with a retryable result the message stays and the claim is free;
      with only other failures the event is dead-lettered and the claim is free. */
  lemma FailedRunEnds(cfg: Config, s: State, t: TaskId, steps: seq<Step>, end: State, disposition: Disposition)
    requires RunsOut(cfg, s, t, steps, end) && s.tasks[t].pc == Running
    requires disposition != Ack && steps != [] && steps[0].Finish? && AsksFor(steps[0].results, disposition)
    ensures EndsBy(cfg, Freed(s, s.tasks[t].copy.key), t, disposition, end)
  {
    hide EndsBy, Take, AsksFor;
    var key := s.tasks[t].copy.key;
    var s' := FirstStep(cfg, s, t, steps, end);
    assert steps[0] == Finish(t, steps[0].results);
    FinishMoves(cfg, s, t, steps[0].results, disposition);
    if key.Some? {
      ReleasingEnds(cfg, s', t, steps[1..], end);
      EndsAlike(cfg, Freed(s, key), Freed(s', key), t, disposition, end);
    } else {
      SettlingEnds(cfg, s', t, steps[1..], end);
      EndsAlike(cfg, s, s', t, disposition, end);
    }
  }

  /** With successes alone the message is gone, the event done, its key settled, and the claim kept. */
  lemma SuccessfulRunEnds(cfg: Config, s: State, t: TaskId, steps: seq<Step>, end: State)
    requires RunsOut(cfg, s, t, steps, end) && s.tasks[t].pc == Running
    requires steps != [] && steps[0].Finish? && AsksFor(steps[0].results, Ack)
    ensures EndsBy(cfg, Succeeded(s, s.tasks[t].copy, end.owner), t, Ack, end)
  {
    hide Take, AsksFor, Enabled;
    var s' := FirstStep(cfg, s, t, steps, end);
    assert steps[0] == Finish(t, steps[0].results);
    FinishMoves(cfg, s, t, steps[0].results, Ack);
    SettlingEnds(cfg, s', t, steps[1..], end);
    EndsAlike(cfg, Succeeded(s, s.tasks[t].copy, s'.owner), s', t, Ack, end);
  }

  // ----- A whole delivery -----

  /** A delivery just received: refused, it deletes its message and runs no subscriber. */
  lemma RefusedDeliveryEnds(cfg: Config, s: State, t: TaskId, steps: seq<Step>, end: State)
    requires RunsOut(cfg, s, t, steps, end) && s.tasks[t].pc == Received
    requires s.tasks[t].copy.key.Some? && Held(s.claims, s.tasks[t].copy.key.value, s.now)
    ensures end == Ended(Deleted(s, s.tasks[t].message, false), t)
  {
    var s' := FirstStep(cfg, s, t, steps, end);
    assert Alike(s, s', t) && s'.tasks[t].pc == Duplicate;
    AckEnds(cfg, s', t, steps[1..], end);
    EndsAlike(cfg, s, s', t, Ack, end);
  }

  /** The claim is won, or not needed. */
  function Claiming(cfg: Config, s: State, t: TaskId): State
    requires t in s.tasks
  {
    match s.tasks[t].copy.key
    case None => s
    case Some(name) =>
      s.(claims := Claimed(s.claims, name, s.now, cfg.ttl, cfg.maxEntries),
         owner := s.owner[name := Claimer(t, false)],
         won := s.won[t := s.now])
  }

  lemma ClaimMoves(cfg: Config, s: State, t: TaskId)
    requires Enabled(cfg, s, ClaimKey(t))
    requires s.tasks[t].copy.key.Some? ==> !Held(s.claims, s.tasks[t].copy.key.value, s.now)
    ensures var s' := Take(cfg, s, ClaimKey(t)); Alike(Claiming(cfg, s, t), s', t) && s'.tasks[t].pc == Entered
  {
  }

  lemma EnterMoves(cfg: Config, s: State, t: TaskId)
    requires Enabled(cfg, s, Enter(t))
    ensures var s' := Take(cfg, s, Enter(t));
            Alike(s, s', t) && s'.tasks[t].pc == if cfg.subscribers == 0 then Unheard else Running
  {
  }

  /** Otherwise it wins its claim; without a subscriber it is acknowledged, else the subscribers run and their
      results decide as above. */
  lemma AdmittedDeliveryEnds(cfg: Config, s: State, t: TaskId, steps: seq<Step>, end: State)
    requires RunsOut(cfg, s, t, steps, end) && s.tasks[t].pc == Received
    requires s.tasks[t].copy.key.Some? ==> !Held(s.claims, s.tasks[t].copy.key.value, s.now)
    ensures cfg.subscribers == 0 ==> EndsBy(cfg, Claiming(cfg, s, t), t, Ack, end)
    ensures cfg.subscribers >= 1 ==>
              && |steps| >= 3 && steps[2].Finish? && |steps[2].results| == cfg.subscribers
              && (forall d | d != Ack && AsksFor(steps[2].results, d) ::
                    EndsBy(cfg, Freed(Claiming(cfg, s, t), s.tasks[t].copy.key), t, d, end))
              && (AsksFor(steps[2].results, Ack) ==>
                    EndsBy(cfg, Succeeded(Claiming(cfg, s, t), s.tasks[t].copy, end.owner), t, Ack, end))
  {
    hide EndsBy, Take, AsksFor;
    var c := Claiming(cfg, s, t);
    var s1 := FirstStep(cfg, s, t, steps, end);
    assert steps[0] == ClaimKey(t);
    ClaimMoves(cfg, s, t);
    var s2 := FirstStep(cfg, s1, t, steps[1..], end);
    assert steps[1..][0] == Enter(t) && steps[1..][1..] == steps[2..];
    EnterMoves(cfg, s1, t);
    assert Alike(c, s2, t);
    if cfg.subscribers == 0 {
      UnheardEnds(cfg, s2, t, steps[2..], end);
      EndsAlike(cfg, c, s2, t, Ack, end);
    } else {
      AdmittedRunEnds(cfg, c, s2, t, steps[2..], end);
      assert steps[2..][0] == steps[2];
    }
  }

  lemma UnheardEnds(cfg: Config, s: State, t: TaskId, steps: seq<Step>, end: State)
    requires RunsOut(cfg, s, t, steps, end) && s.tasks[t].pc == Unheard
    ensures EndsBy(cfg, s, t, Ack, end)
  {
    AckEnds(cfg, s, t, steps, end);
  }

  lemma AdmittedRunEnds(cfg: Config, c: State, s: State, t: TaskId, steps: seq<Step>, end: State)
    requires Alike(c, s, t) && RunsOut(cfg, s, t, steps, end) && s.tasks[t].pc == Running
    ensures steps != [] && steps[0].Finish? && |steps[0].results| == cfg.subscribers
    ensures forall d | d != Ack && AsksFor(steps[0].results, d) ::
              EndsBy(cfg, Freed(c, c.tasks[t].copy.key), t, d, end)
    ensures AsksFor(steps[0].results, Ack) ==> EndsBy(cfg, Succeeded(c, c.tasks[t].copy, end.owner), t, Ack, end)
  {
    hide EndsBy, Take, AsksFor;
    var key := c.tasks[t].copy.key;
    var s' := FirstStep(cfg, s, t, steps, end);
    forall d | d != Ack && AsksFor(steps[0].results, d) ensures EndsBy(cfg, Freed(c, key), t, d, end) {
      FailedRunEnds(cfg, s, t, steps, end, d);
      EndsAlike(cfg, Freed(c, key), Freed(s, key), t, d, end);
    }
    if AsksFor(steps[0].results, Ack) {
      SuccessfulRunEnds(cfg, s, t, steps, end);
      var copy := c.tasks[t].copy;
      EndsAlike(cfg, Succeeded(c, copy, end.owner), Succeeded(s, copy, end.owner), t, Ack, end);
    }
  }

  // ----- Failing calls -----

  /** A dispatch call that raises something other than ClientError. */
  predicate Raises(step: Step) {
    match step
    case AckMessage(_, _, raises) => raises
    case RetryMessage(_, raises) => raises
    case SendToDlq(_, _, _, result) => result == Broken
    case _ => false
  }

  lemma FailingEnds(cfg: Config, s: State, t: TaskId, steps: seq<Step>, end: State)
    requires RunsOut(cfg, s, t, steps, end) && s.tasks[t].pc == Failing
    ensures EndsBy(cfg, Freed(s, s.tasks[t].copy.key), t, DeadLetter, end)
  {
    hide EndsBy, Take;
    var s' := FirstStep(cfg, s, t, steps, end);
    assert steps[0] == ReleaseKey(t);
    ReleaseMoves(cfg, s, t);
    FallbackEnds(cfg, s', t, steps[1..], end);
    EndsAlike(cfg, Freed(s, s.tasks[t].copy.key), s', t, DeadLetter, end);
  }

  lemma FallbackEnds(cfg: Config, s: State, t: TaskId, steps: seq<Step>, end: State)
    requires RunsOut(cfg, s, t, steps, end) && s.tasks[t].pc == Fallback
    ensures EndsBy(cfg, s, t, DeadLetter, end)
  {
    DeadLetterEnds(cfg, s, t, steps, end);
  }

  lemma RaiseMoves(cfg: Config, s: State, t: TaskId, step: Step)
    requires Enabled(cfg, s, step) && Mover(step) == Some(t) && Raises(step)
    requires s.tasks[t].pc == Unheard || s.tasks[t].pc.Settling? || s.tasks[t].pc == Diverted(false)
    ensures var s' := Take(cfg, s, step);
            && t in s'.tasks && s'.tasks[t] == Task(s.tasks[t].message, s.tasks[t].copy, s'.tasks[t].pc)
            && s'.tasks[t].pc == if s.tasks[t].copy.key.Some? then Failing else Fallback
  {
  }

  /** A call that raises inside the dispatch does not end the delivery: it gives the claim up and dead-letters
      the message once more. */
  lemma RaisedCallEnds(cfg: Config, s: State, t: TaskId, step: Step, steps: seq<Step>, end: State)
    requires Enabled(cfg, s, step) && Mover(step) == Some(t) && Raises(step)
    requires s.tasks[t].pc == Unheard || s.tasks[t].pc.Settling? || s.tasks[t].pc == Diverted(false)
    ensures t in Take(cfg, s, step).tasks
    ensures RunsOut(cfg, Take(cfg, s, step), t, steps, end) ==>
              EndsBy(cfg, Freed(Take(cfg, s, step), s.tasks[t].copy.key), t, DeadLetter, end)
  {
    hide EndsBy, Take, RunsOut;
    RaiseMoves(cfg, s, t, step);
    if RunsOut(cfg, Take(cfg, s, step), t, steps, end) {
      if s.tasks[t].copy.key.Some? {
        FailingEnds(cfg, Take(cfg, s, step), t, steps, end);
      } else {
        FallbackEnds(cfg, Take(cfg, s, step), t, steps, end);
      }
    }
  }

  /** The same when the delete after a dead-lettering raises: within the dispatch the message is dead-lettered a
      second time; after it the delivery is over. */
  lemma RaisedDeleteEnds(cfg: Config, s: State, t: TaskId, d: MessageId, effect: bool, steps: seq<Step>, end: State)
    requires cfg.ackMayRaise && Enabled(cfg, s, SendToDlq(t, d, true, Sent))
    ensures var s1 := Take(cfg, s, SendToDlq(t, d, true, Sent));
            && Enabled(cfg, s1, AckMessage(t, effect, true))
            && var s2 := Take(cfg, s1, AckMessage(t, effect, true));
               && s2.dlq == s.dlq[d := s.tasks[t].copy.event] && s2.claims == s.claims
               && s2.source == (if effect then s.source - {s.tasks[t].message} else s.source)
               && (t in s2.tasks <==> s.tasks[t].pc != Fallback)
               && (RunsOut(cfg, s2, t, steps, end) ==>
                     EndsBy(cfg, Freed(s2, s.tasks[t].copy.key), t, DeadLetter, end))
  {
    var s1 := Take(cfg, s, SendToDlq(t, d, true, Sent));
    if s.tasks[t].pc != Fallback {
      RaisedCallEnds(cfg, s1, t, AckMessage(t, effect, true), steps, end);
    }
  }

  /** An exception before the claim, or out of the acknowledgement of a duplicate, does not end the delivery: it
      dead-letters the message and touches no claim. */
  lemma EarlyRaiseEnds(cfg: Config, s: State, t: TaskId, step: Step, steps: seq<Step>, end: State)
    requires Enabled(cfg, s, step)
    requires step == LookupFails(t) || (step.AckMessage? && step.t == t && step.raises && s.tasks[t].pc == Duplicate)
    ensures t in Take(cfg, s, step).tasks && Take(cfg, s, step).claims == s.claims
    ensures RunsOut(cfg, Take(cfg, s, step), t, steps, end) ==>
              EndsBy(cfg, Take(cfg, s, step), t, DeadLetter, end)
  {
    assert Take(cfg, s, step).tasks[t].pc == Fallback;
    hide EndsBy, Take, RunsOut;
    if RunsOut(cfg, Take(cfg, s, step), t, steps, end) {
      FallbackEnds(cfg, Take(cfg, s, step), t, steps, end);
    }
  }

  /** A ClientError is swallowed: the delivery is over, and only what took effect has changed. */
  lemma SwallowedCallEnds(cfg: Config, s: State, t: TaskId, effect: bool, d: MessageId)
    ensures Enabled(cfg, s, AckMessage(t, effect, false)) ==>
              Take(cfg, s, AckMessage(t, effect, false)) ==
              Ended(if effect then Deleted(s, s.tasks[t].message, s.tasks[t].pc.Diverted?) else s, t)
    ensures Enabled(cfg, s, SendToDlq(t, d, effect, Refused)) ==>
              Take(cfg, s, SendToDlq(t, d, effect, Refused)) ==
              Ended(if effect then DeadLettered(s, d, s.tasks[t].copy.event) else s, t)
  {
  }

  /** What raises once the dispatch has been left ends the delivery. */
  lemma LastRaiseEnds(cfg: Config, s: State, step: Step, t: TaskId)
    requires Enabled(cfg, s, step) && Mover(step) == Some(t) && Raises(step)
    requires s.tasks[t].pc == Fallback || s.tasks[t].pc == Diverted(true)
    ensures t !in Take(cfg, s, step).tasks && Take(cfg, s, step).claims == s.claims
  {
  }

  // ----- Nothing is stuck, and every failure can happen -----

  /** Only a delivery that has a key gives a claim up. */
  ghost predicate ReleasesKeys(s: State) {
    forall t | t in s.tasks && AsksRelease(s.tasks[t].pc) :: s.tasks[t].copy.key.Some?
  }

  lemma {:induction false} RunReleasesKeys(cfg: Config, run: seq<State>, i: nat)
    requires IsRun(cfg, run) && i < |run|
    ensures ReleasesKeys(run[i])
  {
    if i > 0 {
      RunReleasesKeys(cfg, run, i - 1);
      var step := StepOf(cfg, run, i - 1);
      StepReleasesKeys(cfg, run[i - 1], step);
    }
  }

  lemma StepReleasesKeys(cfg: Config, s: State, step: Step)
    requires Enabled(cfg, s, step) && ReleasesKeys(s)
    ensures ReleasesKeys(Take(cfg, s, step))
  {
    forall t | t in Take(cfg, s, step).tasks && AsksRelease(Take(cfg, s, step).tasks[t].pc)
      ensures Take(cfg, s, step).tasks[t].copy.key.Some? {
      if Mover(step) != Some(t) { OthersStay(cfg, s, step, t); }
    }
  }

  /** The calls a delivery can make where it stands, with every result they can have: a call may take effect
      or not and fail or not; but a send that succeeds takes effect, and only an acknowledger that may raise
      does. */
  lemma CallsWithResults(cfg: Config, s: State, t: TaskId, d: MessageId, effect: bool, raises: bool, result: SendResult)
    requires t in s.tasks && FreshLetter(s, d)
    ensures s.tasks[t].pc in {Duplicate, Unheard, Settling(Ack), Diverted(false), Diverted(true)} ==>
              (Enabled(cfg, s, AckMessage(t, effect, raises)) <==> (raises ==> cfg.ackMayRaise))
    ensures s.tasks[t].pc == Settling(RetryLater)
            || (!cfg.hasDlq && s.tasks[t].pc in {Settling(DeadLetter), Fallback}) ==>
              (Enabled(cfg, s, RetryMessage(t, raises)) <==> (raises ==> cfg.ackMayRaise))
    ensures cfg.hasDlq && s.tasks[t].pc in {Settling(DeadLetter), Fallback} ==>
              (Enabled(cfg, s, SendToDlq(t, d, effect, result)) <==>
               (result == Sent ==> effect) && (result == Broken ==> cfg.ackMayRaise))
    ensures s.tasks[t].pc == Received ==> Enabled(cfg, s, ClaimKey(t)) && Enabled(cfg, s, LookupFails(t))
  {
  }

  lemma FreshLetterExists(s: State) returns (d: MessageId)
    ensures FreshLetter(s, d)
  {
    var used := s.dlq.Keys + set r | r in s.redrives :: s.redrives[r].letter;
    d := Above(used);
  }

  lemma {:induction false} Above(used: set<nat>) returns (n: nat)
    ensures forall m | m in used :: m < n
    decreases used
  {
    if used == {} {
      n := 0;
    } else {
      var m :| m in used;
      var rest := Above(used - {m});
      n := if m < rest then rest else m + 1;
      forall k | k in used ensures k < n {
        if k != m { assert k in used - {m}; }
      }
    }
  }

  /** How many steps a delivery is from its end at most. */
  function Rank(pc: Pc): nat {
    match pc
    case Received => 8
    case Entered => 7
    case Running => 6
    case Releasing(_) => 5
    case Settling(_) => 4
    case Failing => 4
    case Unheard => 3
    case Fallback => 3
    case Duplicate => 2
    case Diverted(_) => 1
  }

  lemma {:induction false} CanRunOut(cfg: Config, s: State, t: TaskId, results: seq<SubscriberResult>)
    returns (steps: seq<Step>, end: State)
    requires t in s.tasks && ReleasesKeys(s) && |results| == cfg.subscribers
    ensures RunsOut(cfg, s, t, steps, end)
    ensures s.tasks[t].pc == Running ==> steps[0] == Finish(t, results)
    decreases Rank(s.tasks[t].pc)
  {
    var d := FreshLetterExists(s);
    var step := SmoothStep(cfg, s, t, results, d);
    SmoothStepFits(cfg, s, t, results, d);
    SmoothStepAdvances(cfg, s, t, step);
    var s' := Take(cfg, s, step);
    StepReleasesKeys(cfg, s, step);
    if t in s'.tasks {
      var rest, last := CanRunOut(cfg, s', t, results);
      steps, end := [step] + rest, last;
      assert steps[1..] == rest;
    } else {
      steps, end := [step], s';
      assert Solo(cfg, s', t, [], s');
    }
  }

  /** The next step of a delivery whose calls succeed. */
  function SmoothStep(cfg: Config, s: State, t: TaskId, results: seq<SubscriberResult>, d: MessageId): Step
    requires t in s.tasks
  {
    match s.tasks[t].pc
    case Received => ClaimKey(t)
    case Entered => Enter(t)
    case Running => Finish(t, results)
    case Releasing(_) => ReleaseKey(t)
    case Failing => ReleaseKey(t)
    case Settling(disposition) =>
      if disposition == Ack then AckMessage(t, true, false)
      else if disposition == DeadLetter && cfg.hasDlq then SendToDlq(t, d, true, Sent)
      else RetryMessage(t, false)
    case Fallback => if cfg.hasDlq then SendToDlq(t, d, true, Sent) else RetryMessage(t, false)
    case _ => AckMessage(t, true, false)
  }

  lemma SmoothStepFits(cfg: Config, s: State, t: TaskId, results: seq<SubscriberResult>, d: MessageId)
    requires t in s.tasks && ReleasesKeys(s) && |results| == cfg.subscribers && FreshLetter(s, d)
    ensures var step := SmoothStep(cfg, s, t, results, d);
            Enabled(cfg, s, step) && Mover(step) == Some(t) && !step.Receive? && Smooth(step)
  {
  }

  lemma SmoothStepAdvances(cfg: Config, s: State, t: TaskId, step: Step)
    requires Enabled(cfg, s, step) && Mover(step) == Some(t) && !step.Receive? && Smooth(step)
    ensures t in Take(cfg, s, step).tasks ==> Rank(Take(cfg, s, step).tasks[t].pc) < Rank(s.tasks[t].pc)
  {
    hide SourceAfter, DlqAfter, ClaimsAfter, OwnerAfter, WonAfter, DoneAfter, SettledAfter, RedrivesAfter, LedgerAfter;
  }

  /** At every state of every run every delivery can run out, whatever its subscribers answer. */
  lemma NobodyIsStuck(cfg: Config, run: seq<State>, i: nat, t: TaskId, results: seq<SubscriberResult>)
    returns (steps: seq<Step>, end: State)
    requires IsRun(cfg, run) && i < |run| && t in run[i].tasks && |results| == cfg.subscribers
    ensures RunsOut(cfg, run[i], t, steps, end)
    ensures run[i].tasks[t].pc == Running ==> steps[0] == Finish(t, results)
  {
    RunReleasesKeys(cfg, run, i);
    steps, end := CanRunOut(cfg, run[i], t, results);
  }

  // ----- A redrive -----

  lemma RedriveReceives(cfg: Config, s: State, r: RedriveId, d: MessageId)
    requires r !in s.redrives && d in s.dlq
    ensures Enabled(cfg, s, RedriveReceive(r, d))
    ensures Take(cfg, s, RedriveReceive(r, d)) == s.(redrives := s.redrives[r := Replay(d, s.dlq[d], false)])
  {
  }

  lemma RedriveSends(cfg: Config, s: State, r: RedriveId, m: MessageId, key: Option<string>)
    requires r in s.redrives && !s.redrives[r].sent && FreshMessage(s, m)
    requires KeyFits(cfg, Copy(s.redrives[r].event, key))
    ensures Enabled(cfg, s, RedriveSend(r, m, key, true, true))
    ensures Take(cfg, s, RedriveSend(r, m, key, true, true)) ==
            s.(source := s.source[m := Copy(s.redrives[r].event, key)],
               redrives := s.redrives[r := s.redrives[r].(sent := true)],
               ledger := s.ledger.(sent := s.ledger.sent + 1))
  {
  }

  lemma RedriveDeletes(cfg: Config, s: State, r: RedriveId)
    requires r in s.redrives && s.redrives[r].sent && s.redrives[r].letter in s.dlq
    ensures Enabled(cfg, s, RedriveDelete(r, true))
    ensures Take(cfg, s, RedriveDelete(r, true)) ==
            s.(dlq := s.dlq - {s.redrives[r].letter},
               redrives := s.redrives - {r},
               ledger := s.ledger.(moved := s.ledger.moved + 1))
  {
  }

  /** A redrive whose calls succeed moves its dead letter to the source, as a message of the same event under
      any key the event can have. */
  lemma RedriveEnds(cfg: Config, s: State, r: RedriveId, d: MessageId, m: MessageId, key: Option<string>)
    requires r !in s.redrives && d in s.dlq && FreshMessage(s, m) && KeyFits(cfg, Copy(s.dlq[d], key))
    ensures Enabled(cfg, s, RedriveReceive(r, d))
    ensures var s1 := Take(cfg, s, RedriveReceive(r, d));
            && Enabled(cfg, s1, RedriveSend(r, m, key, true, true))
            && var s2 := Take(cfg, s1, RedriveSend(r, m, key, true, true));
               && Enabled(cfg, s2, RedriveDelete(r, true))
               && Take(cfg, s2, RedriveDelete(r, true)) ==
                  s.(source := s.source[m := Copy(s.dlq[d], key)],
                     dlq := s.dlq - {d},
                     ledger := s.ledger.(sent := s.ledger.sent + 1, moved := s.ledger.moved + 1))
  {
    hide Take, Enabled;
    RedriveReceives(cfg, s, r, d);
    var s1 := Take(cfg, s, RedriveReceive(r, d));
    RedriveSends(cfg, s1, r, m, key);
    var s2 := Take(cfg, s1, RedriveSend(r, m, key, true, true));
    RedriveDeletes(cfg, s2, r);
    assert s2.redrives - {r} == s.redrives;
  }

  /** The calls of a redrive, with every result they can have; a letter can be received by several redrives. */
  lemma RedriveCallsWithResults(
    cfg: Config, s: State, r: RedriveId, d: MessageId, m: MessageId, key: Option<string>, effect: bool, sent: bool)
    ensures Enabled(cfg, s, RedriveReceive(r, d)) <==> r !in s.redrives && d in s.dlq
    ensures r in s.redrives && !s.redrives[r].sent && FreshMessage(s, m)
            && KeyFits(cfg, Copy(s.redrives[r].event, key)) ==>
              (Enabled(cfg, s, RedriveSend(r, m, key, effect, sent)) <==> (sent ==> effect))
    ensures r in s.redrives && s.redrives[r].sent ==> Enabled(cfg, s, RedriveDelete(r, effect))
  {
  }

  /** A send or a delete of a redrive that fails ends it, and leaves the dead letter where it is unless the
      delete took effect. */
  lemma RedriveFails(cfg: Config, s: State, r: RedriveId, m: MessageId, key: Option<string>, effect: bool)
    ensures Enabled(cfg, s, RedriveSend(r, m, key, effect, false)) ==>
              var s' := Take(cfg, s, RedriveSend(r, m, key, effect, false));
              && r !in s'.redrives && s'.dlq == s.dlq
              && s'.source == if effect then s.source[m := Copy(s.redrives[r].event, key)] else s.source
    ensures Enabled(cfg, s, RedriveDelete(r, effect)) ==>
              var s' := Take(cfg, s, RedriveDelete(r, effect));
              && r !in s'.redrives && s'.source == s.source
              && s'.dlq == if effect then s.dlq - {s.redrives[r].letter} else s.dlq
  {
  }
}
