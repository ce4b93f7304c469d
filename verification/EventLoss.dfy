/** When a published event can be lost, over every run of the protocol. */
module EventLoss {
  import opened Wrappers
  import opened ClaimStore
  import opened Outcomes
  import opened Ledgers
  import opened Protocol

  /** The event was handled by every subscriber, or a message of it is in the source or the dead letters. */
  ghost predicate Accounted(s: State, e: Event) {
    || e in s.done
    || (exists m | m in s.source :: s.source[m].event == e)
    || (exists d | d in s.dlq :: s.dlq[d] == e)
  }

  /** With a lifetime of nothing every claim is won. */
  predicate NeverRefuses(cfg: Config) {
    cfg.ttl.Some? && cfg.ttl.value <= 0.0
  }

  /** No other event can get a claim key that this event can get. */
  ghost predicate OwnKeys(cfg: Config, e: Event) {
    forall name, other | cfg.keys(name, e) && cfg.keys(name, other) :: other == e
  }

  /** The event never gets a claim key: there is no policy, or the key function gives it none. */
  ghost predicate Untracked(cfg: Config, e: Event) {
    forall name :: !cfg.keys(name, e)
  }

  /** The setups under which no run loses the event. */
  ghost predicate Secure(cfg: Config, e: Event) {
    && cfg.subscribers >= 1
    && (Untracked(cfg, e) || NeverRefuses(cfg) || (!cfg.overlap && OwnKeys(cfg, e)))
  }

  // ----- The invariant -----

  /** The dispatch will delete its message although its event is not handled by it. */
  predicate Leaving(pc: Pc) {
    pc == Duplicate || pc.Diverted?
  }

  predicate HasMessage(pc: Pc) {
    pc == Received || Handling(pc) || pc.Settling?
  }

  ghost predicate Leaver(s: State, t: TaskId, m: MessageId) {
    t in s.tasks && s.tasks[t].message == m && Leaving(s.tasks[t].pc)
  }

  /** A copy in the source that no dispatch is about to delete. */
  ghost predicate SafeInSource(s: State, m: MessageId, e: Event) {
    m in s.source && s.source[m].event == e && forall t :: !Leaver(s, t, m)
  }

  /** A dead letter that no redrive is about to delete. */
  ghost predicate SafeInDlq(s: State, d: MessageId, e: Event) {
    d in s.dlq && s.dlq[d] == e && forall r | r in s.redrives && s.redrives[r].sent :: s.redrives[r].letter != d
  }

  ghost predicate Kept(s: State, e: Event) {
    || e in s.done
    || (exists m :: SafeInSource(s, m, e))
    || (exists d :: SafeInDlq(s, d, e))
  }

  /** What holds of a delivery wherever it is; its message can vanish only when deliveries overlap. */
  ghost predicate TaskFits(cfg: Config, s: State, t: TaskId)
    requires t in s.tasks
  {
    var task := s.tasks[t];
    && (task.message in s.source ==> s.source[task.message] == task.copy)
    && (!cfg.overlap && HasMessage(task.pc) ==> task.message in s.source)
    && (task.pc == Settling(Ack) ==> task.copy.event in s.done)
    && task.pc != Unheard && task.pc != Releasing(Ack)
  }

  ghost predicate Apart(s: State, t: TaskId, u: TaskId) {
    t in s.tasks && u in s.tasks && s.tasks[t].message == s.tasks[u].message ==> t == u
  }

  ghost predicate TasksFit(cfg: Config, s: State) {
    && (forall t | t in s.tasks :: TaskFits(cfg, s, t))
    && (!cfg.overlap ==> forall t, u :: Apart(s, t, u))
  }

  /** What a redrive has received is what it will delete. */
  ghost predicate ReplaysFit(s: State) {
    forall r | r in s.redrives && s.redrives[r].letter in s.dlq :: s.dlq[s.redrives[r].letter] == s.redrives[r].event
  }

  predicate Handles(s: State, t: TaskId, name: string) {
    t in s.tasks && s.tasks[t].copy.key == Some(name) && Handling(s.tasks[t].pc)
  }

  /** A claim's last claimer has succeeded, or still handles its message. */
  ghost predicate Backed(s: State, name: string) {
    && name in s.owner
    && (s.owner[name].succeeded || Handles(s, s.owner[name].task, name))
  }

  /** A claimer that succeeded has handled an event that can have the key. */
  ghost predicate SucceededOn(cfg: Config, s: State, name: string) {
    name in s.owner && s.owner[name].succeeded ==> exists e :: e in s.done && cfg.keys(name, e)
  }

  ghost predicate Lapsed(s: State, name: string) {
    name in s.claims ==> s.claims[name].At? && s.claims[name].time <= s.now
  }

  ghost predicate ClaimsFit(cfg: Config, s: State) {
    && (forall name | name in s.claims :: Backed(s, name))
    && (forall name :: SucceededOn(cfg, s, name))
    && (NeverRefuses(cfg) ==> forall name :: Lapsed(s, name))
  }

  ghost predicate Inv(cfg: Config, s: State, e: Event) {
    && Grounded(cfg, s) && TasksFit(cfg, s) && ReplaysFit(s) && ClaimsFit(cfg, s)
    && (e in s.published ==> Kept(s, e))
  }

  // ----- Every step keeps it -----

  lemma StepKeepsApart(cfg: Config, s: State, step: Step, t: TaskId, u: TaskId)
    requires !cfg.overlap && Enabled(cfg, s, step) && TasksFit(cfg, s)
    ensures Apart(Take(cfg, s, step), t, u)
  {
    assert Apart(s, t, u);
    var s' := Take(cfg, s, step);
    if Mover(step) != Some(t) { OthersStay(cfg, s, step, t); }
    if Mover(step) != Some(u) { OthersStay(cfg, s, step, u); }
    if !step.Receive? {
      if Mover(step) == Some(t) && t in s'.tasks { MoverKeepsMessage(cfg, s, step, t); }
      if Mover(step) == Some(u) && u in s'.tasks { MoverKeepsMessage(cfg, s, step, u); }
    }
  }

  lemma OtherFits(cfg: Config, s: State, step: Step, u: TaskId)
    requires Enabled(cfg, s, step) && TasksFit(cfg, s)
    requires u in s.tasks && Mover(step) != Some(u)
    ensures u in Take(cfg, s, step).tasks && TaskFits(cfg, Take(cfg, s, step), u)
  {
    OthersStay(cfg, s, step, u);
    SourceChanges(cfg, s, step, s.tasks[u].message);
    DoneStays(cfg, s, step);
    assert TaskFits(cfg, s, u);
    if step.AckMessage? { assert !cfg.overlap ==> Apart(s, u, step.t); }
  }

  lemma MoverFits(cfg: Config, s: State, step: Step, t: TaskId)
    requires cfg.subscribers >= 1 && Enabled(cfg, s, step) && TasksFit(cfg, s)
    requires Mover(step) == Some(t) && t in Take(cfg, s, step).tasks
    ensures TaskFits(cfg, Take(cfg, s, step), t)
  {
    hide ClaimsAfter, OwnerAfter, WonAfter, DlqAfter, RedrivesAfter, SettledAfter, LedgerAfter;
    if t in s.tasks { assert TaskFits(cfg, s, t); }
  }

  lemma StepKeepsTasksFit(cfg: Config, s: State, step: Step)
    requires cfg.subscribers >= 1 && Enabled(cfg, s, step) && TasksFit(cfg, s)
    ensures TasksFit(cfg, Take(cfg, s, step))
  {
    var s' := Take(cfg, s, step);
    forall t | t in s'.tasks ensures TaskFits(cfg, s', t) {
      if Mover(step) == Some(t) {
        MoverFits(cfg, s, step, t);
      } else {
        OthersStay(cfg, s, step, t);
        OtherFits(cfg, s, step, t);
      }
    }
    if !cfg.overlap {
      forall t, u ensures Apart(s', t, u) {
        StepKeepsApart(cfg, s, step, t, u);
      }
    }
  }

  lemma StepKeepsReplaysFit(cfg: Config, s: State, step: Step)
    requires Enabled(cfg, s, step) && ReplaysFit(s)
    ensures ReplaysFit(Take(cfg, s, step))
  {
  }

  /** A handling delivery stays one until it succeeds or gives up its claim. */
  lemma HandlerMoves(cfg: Config, s: State, step: Step, t: TaskId, name: string)
    requires cfg.subscribers >= 1 && Enabled(cfg, s, step) && Handles(s, t, name)
    ensures Handles(Take(cfg, s, step), t, name) || (Succeeds(s, step) && step.t == t) || step == ReleaseKey(t)
  {
    if Mover(step) != Some(t) { OthersStay(cfg, s, step, t); }
  }

  lemma StepKeepsBacked(cfg: Config, s: State, step: Step, name: string)
    requires cfg.subscribers >= 1 && Enabled(cfg, s, step)
    requires name in s.claims ==> Backed(s, name)
    requires name in Take(cfg, s, step).claims
    ensures Backed(Take(cfg, s, step), name)
  {
    if !(WinsClaim(s, step) && s.tasks[step.t].copy.key == Some(name)) {
      assert name in s.claims;
      if !s.owner[name].succeeded { HandlerMoves(cfg, s, step, s.owner[name].task, name); }
    }
  }

  lemma StepKeepsSucceededOn(cfg: Config, s: State, step: Step, name: string)
    requires Grounded(cfg, s) && Enabled(cfg, s, step) && SucceededOn(cfg, s, name)
    ensures SucceededOn(cfg, Take(cfg, s, step), name)
  {
    var s' := Take(cfg, s, step);
    DoneStays(cfg, s, step);
    if name in s'.owner && s'.owner[name].succeeded {
      if name in s.owner && s.owner[name].succeeded {
        var e :| e in s.done && cfg.keys(name, e);
        assert e in s'.done;
      } else {
        var copy := s.tasks[step.t].copy;
        assert KeyFits(cfg, copy) && copy.event in s'.done;
      }
    }
  }

  lemma StepKeepsLapsed(cfg: Config, s: State, step: Step, name: string)
    requires NeverRefuses(cfg) && Enabled(cfg, s, step) && Lapsed(s, name)
    ensures Lapsed(Take(cfg, s, step), name)
  {
  }

  lemma StepKeepsClaimsFit(cfg: Config, s: State, step: Step)
    requires cfg.subscribers >= 1 && Grounded(cfg, s) && Enabled(cfg, s, step) && ClaimsFit(cfg, s)
    ensures ClaimsFit(cfg, Take(cfg, s, step))
  {
    hide Take, Enabled, Backed, SucceededOn, Lapsed;
    var s' := Take(cfg, s, step);
    forall name | name in s'.claims ensures Backed(s', name) {
      StepKeepsBacked(cfg, s, step, name);
    }
    forall name ensures SucceededOn(cfg, s', name) {
      StepKeepsSucceededOn(cfg, s, step, name);
    }
    if NeverRefuses(cfg) {
      forall name ensures Lapsed(s', name) {
        StepKeepsLapsed(cfg, s, step, name);
      }
    }
  }

  /** A step makes a delivery start leaving only by refusing its claim or by sending it to the dead letters. */
  lemma StartsLeaving(cfg: Config, s: State, step: Step, t: TaskId, m: MessageId)
    requires Enabled(cfg, s, step) && !Leaver(s, t, m) && Leaver(Take(cfg, s, step), t, m)
    ensures Mover(step) == Some(t) && t in s.tasks && s.tasks[t].message == m
    ensures RefusesClaim(s, step) || (step.SendToDlq? && step.result == Sent)
  {
    if Mover(step) != Some(t) { OthersStay(cfg, s, step, t); }
  }

  /** A refused delivery leaves its event to the holder of the claim: no other event has the key, and the
      holder has succeeded or keeps another copy. */
  lemma RefusalLeavesHolder(cfg: Config, s: State, step: Step, e: Event)
    requires Secure(cfg, e) && Inv(cfg, s, e) && Enabled(cfg, s, step)
    requires RefusesClaim(s, step) && s.tasks[step.t].copy.event == e
    ensures Kept(Take(cfg, s, step), e)
  {
    var (t, s') := (step.t, Take(cfg, s, step));
    var name := s.tasks[t].copy.key.value;
    assert KeyFits(cfg, s.tasks[t].copy);
    assert NeverRefuses(cfg) ==> Lapsed(s, name);
    assert name in s.claims && Backed(s, name);
    assert SucceededOn(cfg, s, name);
    if s.owner[name].succeeded {
      DoneStays(cfg, s, step);
    } else {
      var holder := s.owner[name].task;
      var m := s.tasks[holder].message;
      assert TaskFits(cfg, s, holder) && Apart(s, t, holder) && KeyFits(cfg, s.tasks[holder].copy);
      forall u ensures !Leaver(s', u, m) {
        assert Apart(s, u, holder);
        if u != t { OthersStay(cfg, s, step, u); }
      }
      assert SafeInSource(s', m, e);
    }
  }

  lemma SourceCopySurvives(cfg: Config, s: State, step: Step, m: MessageId, e: Event)
    requires Secure(cfg, e) && Inv(cfg, s, e) && Enabled(cfg, s, step)
    requires SafeInSource(s, m, e)
    ensures Kept(Take(cfg, s, step), e)
  {
    var s' := Take(cfg, s, step);
    SourceChanges(cfg, s, step, m);
    DoneStays(cfg, s, step);
    if m !in s'.source {
      assert !Leaver(s, step.t, m) && TaskFits(cfg, s, step.t);
    } else if t :| Leaver(s', t, m) {
      assert !Leaver(s, t, m);
      StartsLeaving(cfg, s, step, t, m);
      assert TaskFits(cfg, s, t);
      if step.SendToDlq? {
        assert SafeInDlq(s', step.d, e);
      } else {
        RefusalLeavesHolder(cfg, s, step, e);
      }
    } else {
      assert SafeInSource(s', m, e);
    }
  }

  lemma FreshIsSafe(cfg: Config, s: State, step: Step, m: MessageId, e: Event)
    requires Enabled(cfg, s, step) && Mover(step) == None && FreshMessage(s, m)
    requires m in SourceAfter(s, step) && SourceAfter(s, step)[m].event == e
    ensures SafeInSource(Take(cfg, s, step), m, e)
  {
    forall t ensures !Leaver(Take(cfg, s, step), t, m) {
      OthersStay(cfg, s, step, t);
    }
  }

  lemma DlqCopySurvives(cfg: Config, s: State, step: Step, d: MessageId, e: Event)
    requires Enabled(cfg, s, step) && ReplaysFit(s) && SafeInDlq(s, d, e)
    ensures Kept(Take(cfg, s, step), e)
  {
    if step.RedriveSend? && step.sent && s.redrives[step.r].letter == d {
      FreshIsSafe(cfg, s, step, step.m, e);
    } else {
      assert SafeInDlq(Take(cfg, s, step), d, e);
    }
  }

  lemma StepKeepsEvent(cfg: Config, s: State, step: Step, e: Event)
    requires Secure(cfg, e) && Inv(cfg, s, e) && Enabled(cfg, s, step)
    requires e in Take(cfg, s, step).published
    ensures Kept(Take(cfg, s, step), e)
  {
    DoneStays(cfg, s, step);
    if e !in s.published {
      FreshIsSafe(cfg, s, step, step.m, e);
    } else if m :| SafeInSource(s, m, e) {
      SourceCopySurvives(cfg, s, step, m, e);
    } else if d :| SafeInDlq(s, d, e) {
      DlqCopySurvives(cfg, s, step, d, e);
    }
  }

  lemma StepKeepsInv(cfg: Config, s: State, step: Step, e: Event)
    requires Secure(cfg, e) && Inv(cfg, s, e) && Enabled(cfg, s, step)
    ensures Inv(cfg, Take(cfg, s, step), e)
  {
    hide Take, Enabled, Grounded, TasksFit, ReplaysFit, ClaimsFit, Kept;
    StepKeepsGrounded(cfg, s, step);
    StepKeepsTasksFit(cfg, s, step);
    StepKeepsReplaysFit(cfg, s, step);
    StepKeepsClaimsFit(cfg, s, step);
    if e in Take(cfg, s, step).published {
      StepKeepsEvent(cfg, s, step, e);
    }
  }

  lemma {:induction false} RunKeepsInv(cfg: Config, run: seq<State>, i: nat, e: Event)
    requires Secure(cfg, e) && IsRun(cfg, run) && i < |run|
    ensures Inv(cfg, run[i], e)
  {
    hide Take, Enabled;
    if i > 0 {
      RunKeepsInv(cfg, run, i - 1, e);
      var step := StepOf(cfg, run, i - 1);
      StepKeepsInv(cfg, run[i - 1], step, e);
    }
  }

  /** No event is lost: at every state of every run, under any interleaving and with any queue call
      failing, taking effect or both, a published event is accounted for. */
  lemma NoEventLost(cfg: Config, run: seq<State>, i: nat, e: Event)
    requires Secure(cfg, e) && IsRun(cfg, run)
    requires i < |run| && e in run[i].published
    ensures Accounted(run[i], e)
  {
    RunKeepsInv(cfg, run, i, e);
    var s := run[i];
    assert Kept(s, e);
    if m :| SafeInSource(s, m, e) {
      assert s.source[m].event == e;
    }
    if d :| SafeInDlq(s, d, e) {
      assert s.dlq[d] == e;
    }
  }

  /** A claim still held belongs to its last claimer: that delivery has succeeded, or it is handling the key
      with its message in the source. */
  lemma ClaimsAreBacked(cfg: Config, run: seq<State>, i: nat, name: string)
    requires cfg.subscribers >= 1 && !cfg.overlap && IsRun(cfg, run)
    requires i < |run| && name in run[i].claims
    ensures && name in run[i].owner
            && var t := run[i].owner[name].task;
               || run[i].owner[name].succeeded
               || (Handles(run[i], t, name) && run[i].tasks[t].message in run[i].source)
  {
    RunKeepsClaims(cfg, run, i);
    assert Backed(run[i], name);
    if !run[i].owner[name].succeeded {
      assert TaskFits(cfg, run[i], run[i].owner[name].task);
    }
  }

  /** The step after the j-th state is the delivery's claim of the key, and wins it. */
  ghost predicate WinsAt(run: seq<State>, j: nat, t: TaskId, name: string) {
    && j + 1 < |run| && Standing(run[j], t, Received) && run[j].tasks[t].copy.key == Some(name)
    && Standing(run[j + 1], t, Entered)
  }

  /** The step after the j-th state is the delivery's success. */
  ghost predicate SucceedsAt(run: seq<State>, j: nat, t: TaskId, name: string) {
    && j + 1 < |run| && Standing(run[j], t, Running) && run[j].tasks[t].copy.key == Some(name)
    && Standing(run[j + 1], t, Settling(Ack))
  }

  lemma WinsBySteps(cfg: Config, s: State, step: Step, t: TaskId, name: string)
    requires Enabled(cfg, s, step) && t in s.tasks && s.tasks[t].copy.key == Some(name)
    ensures Standing(s, t, Received) && Standing(Take(cfg, s, step), t, Entered) <==> WinsClaim(s, step) && step.t == t
    ensures Standing(s, t, Running) && Standing(Take(cfg, s, step), t, Settling(Ack)) <==>
            Succeeds(s, step) && step.t == t
  {
    if Mover(step) != Some(t) {
      OthersStay(cfg, s, step, t);
    } else if step.Finish? {
      OutcomeBySeverity(step.results);
    }
  }

  lemma OwnerMoves(cfg: Config, s: State, step: Step, name: string)
    requires Enabled(cfg, s, step) && name in Take(cfg, s, step).owner
    ensures var owner := Take(cfg, s, step).owner[name];
            if WinsClaim(s, step) && s.tasks[step.t].copy.key == Some(name) then owner == Claimer(step.t, false)
            else
              && name in s.owner && owner.task == s.owner[name].task
              && owner.succeeded == (|| s.owner[name].succeeded
                                     || (&& Succeeds(s, step) && step.t == owner.task
                                         && s.tasks[step.t].copy.key == Some(name)))
  {
  }

  /** The recorded claimer of a key is the delivery that won its latest claim, and it is recorded as successful
      exactly if it has succeeded since. */
  lemma {:induction false} OwnerIsLastClaimer(cfg: Config, run: seq<State>, i: nat, name: string) returns (j: nat)
    requires IsRun(cfg, run) && i < |run| && name in run[i].owner
    ensures j < i && WinsAt(run, j, run[i].owner[name].task, name)
    ensures forall k: nat, u | j < k < i :: !WinsAt(run, k, u, name)
    ensures run[i].owner[name].succeeded <==>
            exists k: nat | j < k < i :: SucceedsAt(run, k, run[i].owner[name].task, name)
  {
    hide Take, Enabled;
    var s := run[i - 1];
    var step := StepOf(cfg, run, i - 1);
    OwnerMoves(cfg, s, step, name);
    forall u | u in s.tasks && s.tasks[u].copy.key == Some(name)
      ensures WinsAt(run, i - 1, u, name) <==> WinsClaim(s, step) && step.t == u
      ensures SucceedsAt(run, i - 1, u, name) <==> Succeeds(s, step) && step.t == u
    {
      WinsBySteps(cfg, s, step, u, name);
    }
    if WinsClaim(s, step) && s.tasks[step.t].copy.key == Some(name) {
      j := i - 1;
    } else {
      j := OwnerIsLastClaimer(cfg, run, i - 1, name);
    }
  }

  lemma {:induction false} RunKeepsClaims(cfg: Config, run: seq<State>, i: nat)
    requires cfg.subscribers >= 1 && IsRun(cfg, run) && i < |run|
    ensures TasksFit(cfg, run[i]) && ClaimsFit(cfg, run[i])
  {
    hide Take, Enabled;
    if i > 0 {
      RunKeepsClaims(cfg, run, i - 1);
      RunIsGrounded(cfg, run, i - 1);
      var step := StepOf(cfg, run, i - 1);
      StepKeepsTasksFit(cfg, run[i - 1], step);
      StepKeepsClaimsFit(cfg, run[i - 1], step);
    }
  }

  // ----- Every other setup has a run that loses the event -----

  ghost predicate Gone(s: State, e: Event) {
    e in s.published && !Accounted(s, e)
  }

  ghost predicate CanLose(cfg: Config, e: Event) {
    exists s :: Reaches(cfg, s) && Gone(s, e)
  }

  /** With no subscriber the message is acknowledged and its event is gone. */
  lemma NoSubscriberLoses(cfg: Config, e: Event)
    requires cfg.subscribers == 0
    ensures CanLose(cfg, e)
  {
    ReachesEmpty(cfg);
    var s1 := Publishes(cfg, EMPTY, 0, Copy(e, None));
    var s2 := Arrives(cfg, s1, 1, 0);
    var s3 := Admitted(cfg, s2, 1);
    var s4 := ReachesNext(cfg, s3, Enter(1));
    var s5 := ReachesNext(cfg, s4, AckMessage(1, true, false));
    assert Gone(s5, e);
  }

  /** A refused delivery deletes its message. */
  lemma RefusedDeletes(cfg: Config, s: State, t: TaskId, m: MessageId) returns (s': State)
    requires Reaches(cfg, s) && Enabled(cfg, s, Receive(t, m))
    requires s.source[m].key.Some? && !Free(s, s.source[m].key.value)
    ensures Reaches(cfg, s') && s'.source == s.source - {m} && s'.tasks == s.tasks && s'.dlq == s.dlq
    ensures s'.done == s.done && s'.published == s.published
  {
    var s1 := Arrives(cfg, s, t, m);
    var s2 := ReachesNext(cfg, s1, ClaimKey(t));
    assert s2.tasks[t] == Task(m, s.source[m], Duplicate);
    s' := ReachesNext(cfg, s2, AckMessage(t, true, false));
    assert s'.tasks == s.tasks;
  }

  /** When the broker hands out a message whose dispatch is still running, the refused delivery deletes
      it; if the running one then asks for a retry, nothing is left to retry. */
  lemma OverlapLoses(cfg: Config, name: string, e: Event)
    requires cfg.subscribers >= 1 && cfg.overlap && !NeverRefuses(cfg) && cfg.keys(name, e)
    ensures CanLose(cfg, e)
  {
    var s1 := FirstRuns(cfg, Copy(e, Some(name)));
    var s2 := RefusedDeletes(cfg, s1, 2, 0);
    RetryFindsNothing(cfg, s2, name, e);
  }

  lemma RetryFindsNothing(cfg: Config, s: State, name: string, e: Event)
    requires cfg.subscribers >= 1 && Reaches(cfg, s) && s.source == map[] && s.dlq == map[] && s.done == {}
    requires s.published == {e} && s.tasks == map[1 := Task(0, Copy(e, Some(name)), Running)]
    ensures CanLose(cfg, e)
  {
    var results := seq(cfg.subscribers, i => Retryable(0));
    OutcomeBySeverity(results);
    assert results[0].Retryable?;
    var s1 := ReachesNext(cfg, s, Finish(1, results));
    assert s1.tasks[1].pc == Releasing(RetryLater);
    var s2 := ReachesNext(cfg, s1, ReleaseKey(1));
    var s3 := ReachesNext(cfg, s2, RetryMessage(1, false));
    assert Gone(s3, e);
  }

  /** When two events can get one claim key, the second is taken for a duplicate of the first. */
  lemma SharedKeyLoses(cfg: Config, name: string, e: Event, other: Event)
    requires cfg.subscribers >= 1 && !NeverRefuses(cfg)
    requires cfg.keys(name, e) && cfg.keys(name, other) && other != e
    ensures CanLose(cfg, e)
  {
    var s1 := FirstRuns(cfg, Copy(other, Some(name)));
    var s2 := Publishes(cfg, s1, 5, Copy(e, Some(name)));
    var s3 := RefusedDeletes(cfg, s2, 2, 5);
    assert s3.source == map[0 := Copy(other, Some(name))];
    assert Gone(s3, e);
  }

  /** Exactly when no event is lost: a subscriber is there, and either the event never gets a claim key,
      or claims lapse at once, or the broker does not overlap deliveries and the event's keys are its own. */
  lemma LossExactlyWhen(cfg: Config, e: Event)
    ensures (forall s | Reaches(cfg, s) && e in s.published :: Accounted(s, e)) <==> Secure(cfg, e)
  {
    if Secure(cfg, e) {
      forall s | Reaches(cfg, s) && e in s.published ensures Accounted(s, e) {
        var run :| IsRun(cfg, run) && run[|run| - 1] == s;
        NoEventLost(cfg, run, |run| - 1, e);
      }
    } else {
      InsecureLoses(cfg, e);
      var s :| Reaches(cfg, s) && Gone(s, e);
    }
  }

  lemma InsecureLoses(cfg: Config, e: Event)
    requires !Secure(cfg, e)
    ensures CanLose(cfg, e)
  {
    if cfg.subscribers == 0 {
      NoSubscriberLoses(cfg, e);
    } else if cfg.overlap {
      var name :| cfg.keys(name, e);
      OverlapLoses(cfg, name, e);
    } else {
      var name, other :| cfg.keys(name, e) && cfg.keys(name, other) && other != e;
      SharedKeyLoses(cfg, name, e, other);
    }
  }
}
