/** When a claim key is handled exclusively, over every run of the protocol. */
module Exclusivity {
  import opened Wrappers
  import opened ClaimStore
  import opened Outcomes
  import opened Ledgers
  import opened Protocol

  predicate Runs(s: State, t: TaskId, name: string) {
    t in s.tasks && s.tasks[t].copy.key == Some(name) && s.tasks[t].pc == Running
  }

  /** At most one delivery with the key runs subscribers, and none does once the key is settled. */
  ghost predicate HandledExclusively(s: State, name: string) {
    && (forall t, u | Runs(s, t, name) && Runs(s, u, name) :: t == u)
    && (name in s.settled ==> forall t :: !Runs(s, t, name))
  }

  /** Claims never lapse and no acknowledger call raises. */
  predicate Guarded(cfg: Config) {
    cfg.ttl.None? && !cfg.ackMayRaise
  }

  /** Some message can have the key. */
  ghost predicate InUse(cfg: Config, name: string) {
    exists e :: cfg.keys(name, e)
  }

  // ----- The invariant -----

  /** A delivery that has won a claim and not given it up. */
  predicate HoldsClaim(s: State, t: TaskId) {
    t in s.tasks && s.tasks[t].copy.key.Some? && Handling(s.tasks[t].pc)
  }

  ghost predicate OwnsClaim(s: State, t: TaskId) {
    HoldsClaim(s, t) ==>
      var name := s.tasks[t].copy.key.value;
      name in s.claims && name in s.owner && s.owner[name].task == t && name !in s.settled
  }

  ghost predicate NeverLapses(s: State, name: string) {
    name in s.claims ==> s.claims[name] == Never
  }

  ghost predicate SettledClaimed(s: State, name: string) {
    name in s.settled ==> name in s.claims
  }

  ghost predicate Exclusive(s: State) {
    && (forall t :: OwnsClaim(s, t))
    && (forall name :: NeverLapses(s, name))
    && (forall name :: SettledClaimed(s, name))
    && (forall t | t in s.tasks :: s.tasks[t].pc != Failing)
  }

  lemma OtherKeepsOwner(cfg: Config, s: State, step: Step, t: TaskId)
    requires Enabled(cfg, s, step) && Exclusive(s) && Mover(step) != Some(t)
    ensures OwnsClaim(Take(cfg, s, step), t)
  {
    hide SourceAfter, DlqAfter, WonAfter, DoneAfter, RedrivesAfter, LedgerAfter;
    assert OwnsClaim(s, t);
    OthersStay(cfg, s, step, t);
    if HoldsClaim(s, t) { assert NeverLapses(s, s.tasks[t].copy.key.value); }
    if Mover(step).Some? { assert OwnsClaim(s, Mover(step).value); }
  }

  lemma MoverKeepsOwner(cfg: Config, s: State, step: Step, t: TaskId)
    requires Guarded(cfg) && Enabled(cfg, s, step) && Exclusive(s) && Mover(step) == Some(t)
    ensures OwnsClaim(Take(cfg, s, step), t)
  {
    hide SourceAfter, DlqAfter, WonAfter, DoneAfter, RedrivesAfter, LedgerAfter;
    assert OwnsClaim(s, t);
    if WinsClaim(s, step) {
      var name := s.tasks[t].copy.key.value;
      assert NeverLapses(s, name) && SettledClaimed(s, name);
    }
  }

  lemma StepKeepsSettledClaimed(cfg: Config, s: State, step: Step, name: string)
    requires Enabled(cfg, s, step) && Exclusive(s)
    ensures SettledClaimed(Take(cfg, s, step), name)
  {
    hide SourceAfter, DlqAfter, WonAfter, DoneAfter, RedrivesAfter, LedgerAfter;
    assert SettledClaimed(s, name) && NeverLapses(s, name);
    if Mover(step).Some? { assert OwnsClaim(s, Mover(step).value); }
  }

  lemma StepKeepsNeverLapses(cfg: Config, s: State, step: Step, name: string)
    requires cfg.ttl.None? && Enabled(cfg, s, step) && NeverLapses(s, name)
    ensures NeverLapses(Take(cfg, s, step), name)
  {
  }

  lemma NobodyFails(cfg: Config, s: State, step: Step, t: TaskId)
    requires !cfg.ackMayRaise && Enabled(cfg, s, step) && (t in s.tasks ==> s.tasks[t].pc != Failing)
    requires t in Take(cfg, s, step).tasks
    ensures Take(cfg, s, step).tasks[t].pc != Failing
  {
    if Mover(step) != Some(t) { OthersStay(cfg, s, step, t); }
  }

  lemma StepKeepsExclusive(cfg: Config, s: State, step: Step)
    requires Guarded(cfg) && Enabled(cfg, s, step) && Exclusive(s)
    ensures Exclusive(Take(cfg, s, step))
  {
    hide Take, Enabled, OwnsClaim, NeverLapses, SettledClaimed;
    var s' := Take(cfg, s, step);
    forall t: TaskId ensures OwnsClaim(s', t) {
      if Mover(step) == Some(t) { MoverKeepsOwner(cfg, s, step, t); } else { OtherKeepsOwner(cfg, s, step, t); }
    }
    forall name ensures NeverLapses(s', name) && SettledClaimed(s', name) {
      StepKeepsNeverLapses(cfg, s, step, name);
      StepKeepsSettledClaimed(cfg, s, step, name);
    }
    forall t | t in s'.tasks ensures s'.tasks[t].pc != Failing {
      NobodyFails(cfg, s, step, t);
    }
  }

  lemma {:induction false} RunKeepsExclusive(cfg: Config, run: seq<State>, i: nat)
    requires Guarded(cfg) && IsRun(cfg, run) && i < |run|
    ensures Exclusive(run[i])
  {
    hide Take, Enabled;
    if i > 0 {
      RunKeepsExclusive(cfg, run, i - 1);
      var step := StepOf(cfg, run, i - 1);
      StepKeepsExclusive(cfg, run[i - 1], step);
    }
  }

  lemma {:induction false} SettledStays(cfg: Config, run: seq<State>, i: nat, j: nat)
    requires IsRun(cfg, run) && i <= j < |run|
    ensures run[i].settled <= run[j].settled
    decreases j
  {
    hide Take, Enabled;
    if i < j {
      SettledStays(cfg, run, i, j - 1);
      var step := StepOf(cfg, run, j - 1);
      DoneStays(cfg, run[j - 1], step);
    }
  }

  /** At most one delivery with a key runs subscribers at a time; and after a success none with that key
      ever does, also when the delete after the success failed and the message came back. */
  lemma ExclusiveHandling(cfg: Config, run: seq<State>, i: nat, j: nat, name: string)
    requires Guarded(cfg) && IsRun(cfg, run) && i <= j < |run|
    ensures HandledExclusively(run[j], name)
    ensures name in run[i].settled ==> forall t :: !Runs(run[j], t, name)
  {
    RunKeepsExclusive(cfg, run, j);
    SettledStays(cfg, run, i, j);
    forall t | Runs(run[j], t, name)
      ensures name in run[j].owner && run[j].owner[name].task == t && name !in run[j].settled {
      assert OwnsClaim(run[j], t);
    }
  }

  // ----- A lifetime that outlasts every delivery -----

  /** Every delivery that holds a claim won it less than the claims' lifetime ago. */
  ghost predicate Prompt(cfg: Config, s: State) {
    cfg.ttl.Some? && forall t | HoldsClaim(s, t) :: t in s.won && s.now < s.won[t] + cfg.ttl.value
  }

  /** A delivery that holds a claim is its last claimer, and the claim still has the expiry it gave it. */
  ghost predicate OwnsTimedClaim(cfg: Config, s: State, t: TaskId) {
    HoldsClaim(s, t) && cfg.ttl.Some? ==>
      var name := s.tasks[t].copy.key.value;
      && name in s.claims && name in s.owner && s.owner[name].task == t
      && t in s.won && s.claims[name] == At(s.won[t] + cfg.ttl.value)
  }

  ghost predicate TimedExclusive(cfg: Config, s: State) {
    && (forall t :: OwnsTimedClaim(cfg, s, t))
    && (forall t | t in s.tasks :: s.tasks[t].pc != Failing)
  }

  lemma OtherKeepsTimedClaim(cfg: Config, s: State, step: Step, t: TaskId)
    requires Enabled(cfg, s, step) && Prompt(cfg, s) && TimedExclusive(cfg, s) && Mover(step) != Some(t)
    ensures OwnsTimedClaim(cfg, Take(cfg, s, step), t)
  {
    hide SourceAfter, DlqAfter, DoneAfter, RedrivesAfter, LedgerAfter;
    hide SettledAfter, Claimed;
    assert OwnsTimedClaim(cfg, s, t);
    OthersStay(cfg, s, step, t);
    if Mover(step).Some? { assert OwnsTimedClaim(cfg, s, Mover(step).value); }
    if WinsClaim(s, step) && HoldsClaim(s, t) {
      ClaimedAt(s.claims, s.tasks[step.t].copy.key.value, s.now, cfg.ttl, cfg.maxEntries, s.tasks[t].copy.key.value);
    }
  }

  lemma MoverKeepsTimedClaim(cfg: Config, s: State, step: Step, t: TaskId)
    requires Enabled(cfg, s, step) && TimedExclusive(cfg, s) && Mover(step) == Some(t)
    ensures OwnsTimedClaim(cfg, Take(cfg, s, step), t)
  {
    hide SourceAfter, DlqAfter, DoneAfter, RedrivesAfter, LedgerAfter;
    hide SettledAfter, Claimed;
    assert OwnsTimedClaim(cfg, s, t);
    if WinsClaim(s, step) {
      var name := s.tasks[t].copy.key.value;
      ClaimedAt(s.claims, name, s.now, cfg.ttl, cfg.maxEntries, name);
    }
  }

  lemma StepKeepsTimedExclusive(cfg: Config, s: State, step: Step)
    requires !cfg.ackMayRaise && Enabled(cfg, s, step) && Prompt(cfg, s) && TimedExclusive(cfg, s)
    ensures TimedExclusive(cfg, Take(cfg, s, step))
  {
    hide Take, Enabled, OwnsTimedClaim, Prompt;
    var s' := Take(cfg, s, step);
    forall t: TaskId ensures OwnsTimedClaim(cfg, s', t) {
      if Mover(step) == Some(t) {
        MoverKeepsTimedClaim(cfg, s, step, t);
      } else {
        OtherKeepsTimedClaim(cfg, s, step, t);
      }
    }
    forall t | t in s'.tasks ensures s'.tasks[t].pc != Failing {
      NobodyFails(cfg, s, step, t);
    }
  }

  lemma {:induction false} RunKeepsTimedExclusive(cfg: Config, run: seq<State>, i: nat)
    requires !cfg.ackMayRaise && IsRun(cfg, run) && i < |run|
    requires forall j | 0 <= j < i :: Prompt(cfg, run[j])
    ensures TimedExclusive(cfg, run[i])
  {
    hide Take, Enabled;
    if i > 0 {
      RunKeepsTimedExclusive(cfg, run, i - 1);
      var step := StepOf(cfg, run, i - 1);
      StepKeepsTimedExclusive(cfg, run[i - 1], step);
    }
  }

  /** With a claim lifetime that is longer than every delivery takes from winning its claim to succeeding or
      giving it up, and an acknowledger that does not raise, at most one delivery with a key is between the
      two, and so at most one runs subscribers. */
  lemma LifetimeSuffices(cfg: Config, run: seq<State>, i: nat, t: TaskId, u: TaskId)
    requires !cfg.ackMayRaise && IsRun(cfg, run) && i < |run|
    requires forall j | 0 <= j < i :: Prompt(cfg, run[j])
    requires cfg.ttl.Some? && HoldsClaim(run[i], t) && HoldsClaim(run[i], u)
    requires run[i].tasks[t].copy.key == run[i].tasks[u].copy.key
    ensures t == u
  {
    RunKeepsTimedExclusive(cfg, run, i);
    assert OwnsTimedClaim(cfg, run[i], t) && OwnsTimedClaim(cfg, run[i], u);
  }

  // ----- Every other setup has a run that breaks it -----

  ghost predicate CanBreak(cfg: Config, name: string) {
    exists s :: Reaches(cfg, s) && !HandledExclusively(s, name)
  }

  /** With a claim lifetime, two deliveries of one key can run subscribers at the same time. */
  lemma LifetimeBreaksExclusion(cfg: Config, name: string, e: Event)
    requires cfg.subscribers >= 1 && cfg.keys(name, e) && cfg.ttl.Some?
    ensures CanBreak(cfg, name)
  {
    var copy := Copy(e, Some(name));
    var s1 := FirstRuns(cfg, copy);
    var later := if cfg.ttl.value > 0.0 then cfg.ttl.value else 0.0;
    var s2 := ReachesNext(cfg, s1, Tick(later));
    var s3 := Publishes(cfg, s2, 5, copy);
    var s4 := StartsRunning(cfg, s3, 2, 5);
    assert Runs(s4, 1, name) && Runs(s4, 2, name);
  }

  /** When the acknowledgement of a success raises, the claim is given up; the message comes back and its
      subscribers run again. */
  lemma RaisingAckBreaksExclusion(cfg: Config, name: string, e: Event)
    requires cfg.subscribers >= 1 && cfg.keys(name, e) && cfg.ackMayRaise
    ensures CanBreak(cfg, name)
  {
    var copy := Copy(e, Some(name));
    var s1 := FirstRuns(cfg, copy);
    var s2 := SucceedsUnacknowledged(cfg, s1, copy);
    var s3 := GivesUp(cfg, s2, copy, name);
    var s4 := StartsRunning(cfg, s3, 2, 0);
    assert Runs(s4, 2, name) && name in s4.settled;
  }

  lemma SucceedsUnacknowledged(cfg: Config, s: State, copy: Copy) returns (s': State)
    requires cfg.subscribers >= 1 && cfg.ackMayRaise && copy.key.Some? && Reaches(cfg, s)
    requires s.tasks == map[1 := Task(0, copy, Running)]
    ensures Reaches(cfg, s') && s'.source == s.source && s'.tasks == map[1 := Task(0, copy, Failing)]
    ensures copy.key.value in s'.settled && s'.redrives == s.redrives && s'.dlq == s.dlq
  {
    var results := seq(cfg.subscribers, i => Handled);
    OutcomeBySeverity(results);
    assert Resolve(results) == Success;
    var s1 := ReachesNext(cfg, s, Finish(1, results));
    assert s1.tasks[1].pc == Settling(Ack);
    s' := ReachesNext(cfg, s1, AckMessage(1, false, true));
  }

  /** The claim is released, and the dead-lettering that follows does not send the message either. */
  lemma GivesUp(cfg: Config, s: State, copy: Copy, name: string) returns (s': State)
    requires Reaches(cfg, s) && copy.key == Some(name) && s.tasks == map[1 := Task(0, copy, Failing)]
    requires s.dlq == map[] && s.redrives == map[]
    ensures Reaches(cfg, s') && s'.source == s.source && s'.tasks == map[]
    ensures name !in s'.claims && s'.settled == s.settled
  {
    var s1 := ReachesNext(cfg, s, ReleaseKey(1));
    assert s1.tasks[1].pc == Fallback;
    var last := if cfg.hasDlq then SendToDlq(1, 0, false, Refused) else RetryMessage(1, false);
    s' := ReachesNext(cfg, s1, last);
  }

  /** Exactly when every run handles a key exclusively: nothing runs or nothing has the key, or claims never
      lapse and no acknowledger call raises. */
  lemma ExclusiveExactlyWhen(cfg: Config, name: string)
    ensures (forall s | Reaches(cfg, s) :: HandledExclusively(s, name))
       <==> (cfg.subscribers == 0 || !InUse(cfg, name) || Guarded(cfg))
  {
    if cfg.subscribers == 0 || !InUse(cfg, name) || Guarded(cfg) {
      forall s | Reaches(cfg, s) ensures HandledExclusively(s, name) {
        var run :| IsRun(cfg, run) && run[|run| - 1] == s;
        RunIsGrounded(cfg, run, |run| - 1);
        if Guarded(cfg) {
          ExclusiveHandling(cfg, run, |run| - 1, |run| - 1, name);
        }
      }
    } else {
      var e :| cfg.keys(name, e);
      if cfg.ttl.Some? {
        LifetimeBreaksExclusion(cfg, name, e);
      } else {
        RaisingAckBreaksExclusion(cfg, name, e);
      }
    }
  }
}
