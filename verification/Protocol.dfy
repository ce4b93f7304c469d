/** Concurrent deliveries and redrives against a queue, a dead-letter queue and the claim store, one step
    for each point where they can be interrupted. */
module Protocol {
  import opened Wrappers
  import opened ClaimStore
  import opened Outcomes
  import opened Ledgers

  type TaskId = nat
  type RedriveId = nat

  /** A message: the event it is a copy of, and the claim key the key function gives it (None without a
      policy). Copies of one event can have different keys: by default the key is the message's id, and
      a redrive sends under a new id. */
  datatype Copy = Copy(event: Event, key: Option<string>)

  /** How the consumer is set up, and what its surroundings may do. */
  datatype Config = Config(
    subscribers: nat,
    keys: (string, Event) -> bool, // the key function may give this key to a copy of this event
    ttl: Option<real>,
    maxEntries: int,
    hasDlq: bool,
    ackMayRaise: bool,             // an acknowledger call may raise something other than ClientError
    overlap: bool)                 // the broker may hand out a message whose dispatch is still running

  predicate KeyFits(cfg: Config, copy: Copy) {
    copy.key.Some? ==> cfg.keys(copy.key.value, copy.event)
  }

  /** Where a delivery is in `_process_message` and `_dispatch`. */
  datatype Pc =
    | Received                       // the key function and the claim are next
    | Duplicate                      // the claim was refused; ack is next
    | Entered                        // the claim is won (or not needed)
    | Unheard                        // no subscribers; ack is next
    | Running                        // the subscribers run
    | Releasing(disposition: Disposition) // not a success: the release is next
    | Settling(disposition: Disposition)  // hooks told; ack, retry or dlq is next
    | Diverted(fallback: bool)       // sent to the dead-letter queue; the delete is next
    | Failing                        // an exception in the dispatch: release is next
    | Fallback                       // an exception out of the dispatch: dlq is next

  datatype Task = Task(message: MessageId, copy: Copy, pc: Pc)

  /** The delivery that won a claim, and whether every subscriber succeeded in it. */
  datatype Claimer = Claimer(task: TaskId, succeeded: bool)

  /** A dead letter that a redrive has received; once it is sent back its delete is next. */
  datatype Replay = Replay(letter: MessageId, event: Event, sent: bool)

  datatype State = State(
    source: map<MessageId, Copy>,
    dlq: map<MessageId, Event>,
    claims: Claims,
    owner: map<string, Claimer>,         // who won the latest claim of a key
    won: map<TaskId, real>,              // when a delivery won its claim
    now: real,
    done: set<Event>,                    // every subscriber succeeded in some delivery of the event
    settled: set<string>,                // every subscriber succeeded in some delivery with the key
    tasks: map<TaskId, Task>,
    redrives: map<RedriveId, Replay>,
    published: set<Event>,
    ledger: Ledger)

  const EMPTY: State :=
    State(map[], map[], map[], map[], map[], 0.0, {}, {}, map[], map[], {}, Ledger(0, 0, 0, 0))

  datatype SendResult = Sent | Refused | Broken

  /** One step. `effect` says whether a queue call took effect, `raises` whether it raised: a call may
      take effect and still fail. */
  datatype Step =
    | Tick(later: real)
    | Publish(m: MessageId, copy: Copy)
    | Receive(t: TaskId, m: MessageId)
    | LookupFails(t: TaskId)         // the key function raises, or the claim does without claiming
    | ClaimKey(t: TaskId)
    | Enter(t: TaskId)
    | Finish(t: TaskId, results: seq<SubscriberResult>)
    | ReleaseKey(t: TaskId)
    | AckMessage(t: TaskId, effect: bool, raises: bool)
    | RetryMessage(t: TaskId, raises: bool)
    | SendToDlq(t: TaskId, d: MessageId, effect: bool, result: SendResult)
    | RedriveReceive(r: RedriveId, d: MessageId)
    | RedriveSend(r: RedriveId, m: MessageId, key: Option<string>, effect: bool, sent: bool)
    | RedriveDelete(r: RedriveId, effect: bool)

  predicate FreshMessage(s: State, m: MessageId) {
    && m !in s.source
    && forall t | t in s.tasks :: s.tasks[t].message != m
  }

  predicate FreshLetter(s: State, d: MessageId) {
    && d !in s.dlq
    && forall r | r in s.redrives :: s.redrives[r].letter != d
  }

  /** `dlq` is the next call; without a dead-letter queue it retries. */
  predicate AsksDlq(pc: Pc) {
    pc == Settling(DeadLetter) || pc == Fallback
  }

  predicate AsksAck(pc: Pc) {
    pc.Duplicate? || pc.Unheard? || pc == Settling(Ack) || pc.Diverted?
  }

  /** The dispatch holds the claim it won. */
  predicate Handling(pc: Pc) {
    pc == Entered || pc == Running || pc.Releasing?
  }

  predicate AsksRelease(pc: Pc) {
    pc.Releasing? || pc == Failing
  }

  predicate Standing(s: State, t: TaskId, pc: Pc) {
    t in s.tasks && s.tasks[t].pc == pc
  }

  /** The step can be taken. */
  predicate Enabled(cfg: Config, s: State, step: Step) {
    match step
    case Tick(later) => s.now <= later
    case Publish(m, copy) => FreshMessage(s, m) && KeyFits(cfg, copy)
    case Receive(t, m) =>
      && t !in s.tasks && m in s.source
      && (!cfg.overlap ==> forall o | o in s.tasks :: s.tasks[o].message != m)
    case LookupFails(t) => Standing(s, t, Received)
    case ClaimKey(t) => Standing(s, t, Received)
    case Enter(t) => Standing(s, t, Entered)
    case Finish(t, results) => Standing(s, t, Running) && |results| == cfg.subscribers
    case ReleaseKey(t) => t in s.tasks && AsksRelease(s.tasks[t].pc) && s.tasks[t].copy.key.Some?
    case AckMessage(t, _, raises) => t in s.tasks && AsksAck(s.tasks[t].pc) && (raises ==> cfg.ackMayRaise)
    case RetryMessage(t, raises) =>
      && t in s.tasks && (raises ==> cfg.ackMayRaise)
      && (s.tasks[t].pc == Settling(RetryLater) || (!cfg.hasDlq && AsksDlq(s.tasks[t].pc)))
    case SendToDlq(t, d, effect, result) =>
      && t in s.tasks && cfg.hasDlq && AsksDlq(s.tasks[t].pc) && FreshLetter(s, d)
      && (result == Sent ==> effect) && (result == Broken ==> cfg.ackMayRaise)
    case RedriveReceive(r, d) => r !in s.redrives && d in s.dlq
    case RedriveSend(r, m, key, effect, sent) =>
      && r in s.redrives && !s.redrives[r].sent && FreshMessage(s, m)
      && KeyFits(cfg, Copy(s.redrives[r].event, key)) && (sent ==> effect)
    case RedriveDelete(r, _) => r in s.redrives && s.redrives[r].sent
  }

  /** The delivery a step moves, if it moves one. */
  function Mover(step: Step): Option<TaskId> {
    match step
    case Receive(t, _) => Some(t)
    case LookupFails(t) => Some(t)
    case ClaimKey(t) => Some(t)
    case Enter(t) => Some(t)
    case Finish(t, _) => Some(t)
    case ReleaseKey(t) => Some(t)
    case AckMessage(t, _, _) => Some(t)
    case RetryMessage(t, _) => Some(t)
    case SendToDlq(t, _, _, _) => Some(t)
    case _ => None
  }

  /** An exception inside `_dispatch`: its handler releases the claim, then `_process_message` dead-letters. */
  function Raise(task: Task): Option<Pc> {
    Some(if task.copy.key.Some? then Failing else Fallback)
  }

  /** The next claim of this key is won. */
  predicate Free(s: State, name: string) {
    !Held(s.claims, name, s.now)
  }

  /** The step is a claim, and wins it. */
  predicate WinsClaim(s: State, step: Step) {
    step.ClaimKey? && step.t in s.tasks && s.tasks[step.t].copy.key.Some? && Free(s, s.tasks[step.t].copy.key.value)
  }

  /** The step is a claim that is refused. */
  predicate RefusesClaim(s: State, step: Step) {
    step.ClaimKey? && step.t in s.tasks && s.tasks[step.t].copy.key.Some? && !Free(s, s.tasks[step.t].copy.key.value)
  }

  /** The step is the last part of a delivery that every subscriber handled. */
  predicate Succeeds(s: State, step: Step) {
    step.Finish? && step.t in s.tasks && Resolve(step.results) == Success
  }

  /** Where a step leaves the delivery it moves; None when the delivery ends. */
  function NextPc(cfg: Config, s: State, task: Task, step: Step): Option<Pc> {
    var (key, pc) := (task.copy.key, task.pc);
    match step
    case LookupFails(_) => Some(Fallback)
    case ClaimKey(_) => Some(if key.None? || Free(s, key.value) then Entered else Duplicate)
    case Enter(_) => Some(if cfg.subscribers == 0 then Unheard else Running)
    case Finish(_, results) =>
      var disposition := DispositionOf(Resolve(results));
      Some(if disposition != Ack && key.Some? then Releasing(disposition) else Settling(disposition))
    case ReleaseKey(_) => Some(if pc.Releasing? then Settling(pc.disposition) else Fallback)
    case AckMessage(_, _, raises) =>
      if !raises || pc == Diverted(true) then None else if pc.Duplicate? then Some(Fallback) else Raise(task)
    case RetryMessage(_, raises) => if raises && pc.Settling? then Raise(task) else None
    case SendToDlq(_, _, _, result) =>
      (match result
       case Sent => Some(Diverted(pc == Fallback))
       case Refused => None
       case Broken => if pc == Fallback then None else Raise(task))
    case _ => None
  }

  function TasksAfter(cfg: Config, s: State, step: Step): map<TaskId, Task>
    requires Enabled(cfg, s, step)
  {
    match Mover(step)
    case None => s.tasks
    case Some(t) =>
      if step.Receive? then s.tasks[t := Task(step.m, s.source[step.m], Received)]
      else
        match NextPc(cfg, s, s.tasks[t], step)
        case None => s.tasks - {t}
        case Some(pc) => s.tasks[t := s.tasks[t].(pc := pc)]
  }

  function SourceAfter(s: State, step: Step): map<MessageId, Copy> {
    match step
    case Publish(m, copy) => s.source[m := copy]
    case AckMessage(t, effect, _) => if effect && t in s.tasks then s.source - {s.tasks[t].message} else s.source
    case RedriveSend(r, m, key, effect, _) =>
      if effect && r in s.redrives then s.source[m := Copy(s.redrives[r].event, key)] else s.source
    case _ => s.source
  }

  function DlqAfter(s: State, step: Step): map<MessageId, Event> {
    match step
    case SendToDlq(t, d, effect, _) => if effect && t in s.tasks then s.dlq[d := s.tasks[t].copy.event] else s.dlq
    case RedriveDelete(r, effect) => if effect && r in s.redrives then s.dlq - {s.redrives[r].letter} else s.dlq
    case _ => s.dlq
  }

  function ClaimsAfter(cfg: Config, s: State, step: Step): Claims {
    if WinsClaim(s, step) then Claimed(s.claims, s.tasks[step.t].copy.key.value, s.now, cfg.ttl, cfg.maxEntries)
    else if step.ReleaseKey? && step.t in s.tasks && s.tasks[step.t].copy.key.Some?
    then Released(s.claims, s.tasks[step.t].copy.key.value)
    else s.claims
  }

  function OwnerAfter(s: State, step: Step): map<string, Claimer> {
    if WinsClaim(s, step) then s.owner[s.tasks[step.t].copy.key.value := Claimer(step.t, false)]
    else if Succeeds(s, step) && s.tasks[step.t].copy.key.Some? then
      var name := s.tasks[step.t].copy.key.value;
      if name in s.owner && s.owner[name].task == step.t then s.owner[name := Claimer(step.t, true)] else s.owner
    else s.owner
  }

  function WonAfter(s: State, step: Step): map<TaskId, real> {
    if WinsClaim(s, step) then s.won[step.t := s.now] else s.won
  }

  function DoneAfter(s: State, step: Step): set<Event> {
    if Succeeds(s, step) then s.done + {s.tasks[step.t].copy.event} else s.done
  }

  function SettledAfter(s: State, step: Step): set<string> {
    if Succeeds(s, step) && s.tasks[step.t].copy.key.Some?
    then s.settled + {s.tasks[step.t].copy.key.value} else s.settled
  }

  function RedrivesAfter(s: State, step: Step): map<RedriveId, Replay> {
    match step
    case RedriveReceive(r, d) => if d in s.dlq then s.redrives[r := Replay(d, s.dlq[d], false)] else s.redrives
    case RedriveSend(r, _, _, _, sent) =>
      if sent && r in s.redrives then s.redrives[r := s.redrives[r].(sent := true)] else s.redrives - {r}
    case RedriveDelete(r, _) => s.redrives - {r}
    case _ => s.redrives
  }

  function LedgerAfter(s: State, step: Step): Ledger {
    var l := s.ledger;
    match step
    case Publish(_, _) => l.(arrived := l.arrived + 1)
    case SendToDlq(_, _, effect, _) => if effect then l.(sent := l.sent + 1) else l
    case RedriveSend(_, _, _, effect, _) => if effect then l.(sent := l.sent + 1) else l
    case AckMessage(t, effect, _) =>
      if !effect || t !in s.tasks || s.tasks[t].message !in s.source then l
      else if s.tasks[t].pc.Diverted? then l.(moved := l.moved + 1)
      else l.(consumed := l.consumed + 1)
    case RedriveDelete(r, effect) =>
      if effect && r in s.redrives && s.redrives[r].letter in s.dlq then l.(moved := l.moved + 1) else l
    case _ => l
  }

  function Take(cfg: Config, s: State, step: Step): State
    requires Enabled(cfg, s, step)
  {
    State(
      SourceAfter(s, step),
      DlqAfter(s, step),
      ClaimsAfter(cfg, s, step),
      OwnerAfter(s, step),
      WonAfter(s, step),
      if step.Tick? then step.later else s.now,
      DoneAfter(s, step),
      SettledAfter(s, step),
      TasksAfter(cfg, s, step),
      RedrivesAfter(s, step),
      if step.Publish? then s.published + {step.copy.event} else s.published,
      LedgerAfter(s, step))
  }

  // ----- Runs -----

  ghost predicate Next(cfg: Config, s: State, s': State) {
    exists step :: Enabled(cfg, s, step) && s' == Take(cfg, s, step)
  }

  /** A run: the empty state, then the states after each step. */
  ghost predicate IsRun(cfg: Config, run: seq<State>) {
    && run != [] && run[0] == EMPTY
    && forall i | 0 <= i < |run| - 1 :: Next(cfg, run[i], run[i + 1])
  }

  /** Some run ends in this state. */
  ghost predicate Reaches(cfg: Config, s: State) {
    exists run :: IsRun(cfg, run) && run[|run| - 1] == s
  }

  /** The step between two neighbouring states of a run. */
  lemma StepOf(cfg: Config, run: seq<State>, i: nat) returns (step: Step)
    requires IsRun(cfg, run) && i + 1 < |run|
    ensures Enabled(cfg, run[i], step) && run[i + 1] == Take(cfg, run[i], step)
  {
    assert Next(cfg, run[i], run[i + 1]);
    step :| Enabled(cfg, run[i], step) && run[i + 1] == Take(cfg, run[i], step);
  }

  lemma Extend(cfg: Config, run: seq<State>, step: Step)
    requires IsRun(cfg, run) && Enabled(cfg, run[|run| - 1], step)
    ensures IsRun(cfg, run + [Take(cfg, run[|run| - 1], step)])
  {
    hide Take, Enabled;
    var s' := Take(cfg, run[|run| - 1], step);
    var longer := run + [s'];
    forall i | 0 <= i < |longer| - 1 ensures Next(cfg, longer[i], longer[i + 1]) {
      if i < |run| - 1 { assert Next(cfg, run[i], run[i + 1]); }
    }
  }

  lemma ReachesNext(cfg: Config, s: State, step: Step) returns (s': State)
    requires Reaches(cfg, s) && Enabled(cfg, s, step)
    ensures s' == Take(cfg, s, step) && Reaches(cfg, s')
  {
    hide Take, Enabled;
    var run :| IsRun(cfg, run) && run[|run| - 1] == s;
    Extend(cfg, run, step);
    s' := Take(cfg, s, step);
    var longer := run + [s'];
    assert longer[|longer| - 1] == s';
  }

  lemma ReachesEmpty(cfg: Config)
    ensures Reaches(cfg, EMPTY)
  {
    assert IsRun(cfg, [EMPTY]) && [EMPTY][0] == EMPTY;
  }

  // ----- What a step does to the others -----

  lemma OthersStay(cfg: Config, s: State, step: Step, u: TaskId)
    requires Enabled(cfg, s, step) && Mover(step) != Some(u)
    ensures u in Take(cfg, s, step).tasks <==> u in s.tasks
    ensures u in s.tasks ==> Take(cfg, s, step).tasks[u] == s.tasks[u]
  {
  }

  lemma MoverKeepsMessage(cfg: Config, s: State, step: Step, t: TaskId)
    requires Enabled(cfg, s, step) && Mover(step) == Some(t) && t in s.tasks && t in Take(cfg, s, step).tasks
    ensures Take(cfg, s, step).tasks[t].message == s.tasks[t].message
    ensures Take(cfg, s, step).tasks[t].copy == s.tasks[t].copy
  {
  }

  /** Where the source queue changes. */
  lemma SourceChanges(cfg: Config, s: State, step: Step, m: MessageId)
    requires Enabled(cfg, s, step)
    ensures m in s.source && m !in SourceAfter(s, step) ==>
              step.AckMessage? && step.effect && s.tasks[step.t].message == m
    ensures m in s.source && m in SourceAfter(s, step) ==> SourceAfter(s, step)[m] == s.source[m]
    ensures m !in s.source && m in SourceAfter(s, step) ==>
              FreshMessage(s, m) && Mover(step) == None && KeyFits(cfg, SourceAfter(s, step)[m])
  {
  }

  lemma DoneStays(cfg: Config, s: State, step: Step)
    requires Enabled(cfg, s, step)
    ensures s.done <= Take(cfg, s, step).done
    ensures s.settled <= Take(cfg, s, step).settled
  {
  }

  /** Keys in use are those the key function gives, and nobody runs subscribers that are not there. */
  ghost predicate Grounded(cfg: Config, s: State) {
    && (forall m | m in s.source :: KeyFits(cfg, s.source[m]))
    && (forall t | t in s.tasks :: KeyFits(cfg, s.tasks[t].copy) && (s.tasks[t].pc == Running ==> cfg.subscribers >= 1))
  }

  lemma StepKeepsGrounded(cfg: Config, s: State, step: Step)
    requires Grounded(cfg, s) && Enabled(cfg, s, step)
    ensures Grounded(cfg, Take(cfg, s, step))
  {
    var s' := Take(cfg, s, step);
    forall m | m in s'.source ensures KeyFits(cfg, s'.source[m]) {
      SourceChanges(cfg, s, step, m);
    }
    forall t | t in s'.tasks
      ensures KeyFits(cfg, s'.tasks[t].copy) && (s'.tasks[t].pc == Running ==> cfg.subscribers >= 1) {
      if Mover(step) != Some(t) {
        OthersStay(cfg, s, step, t);
      } else if t in s.tasks {
        MoverKeepsMessage(cfg, s, step, t);
      }
    }
  }

  lemma {:induction false} RunIsGrounded(cfg: Config, run: seq<State>, i: nat)
    requires IsRun(cfg, run) && i < |run|
    ensures Grounded(cfg, run[i])
  {
    if i > 0 {
      RunIsGrounded(cfg, run, i - 1);
      var step := StepOf(cfg, run, i - 1);
      StepKeepsGrounded(cfg, run[i - 1], step);
    }
  }

  // ----- Pieces of runs -----

  /** A copy is published. */
  lemma Publishes(cfg: Config, s: State, m: MessageId, copy: Copy) returns (s': State)
    requires Reaches(cfg, s) && FreshMessage(s, m) && KeyFits(cfg, copy)
    ensures Reaches(cfg, s') && s'.source == s.source[m := copy] && s'.published == s.published + {copy.event}
    ensures s'.tasks == s.tasks && s'.claims == s.claims && s'.now == s.now && s'.dlq == s.dlq
    ensures s'.done == s.done && s'.settled == s.settled && s'.redrives == s.redrives
  {
    s' := ReachesNext(cfg, s, Publish(m, copy));
  }

  /** A message is handed out and its delivery enters the claim. */
  lemma Arrives(cfg: Config, s: State, t: TaskId, m: MessageId) returns (s': State)
    requires Reaches(cfg, s) && Enabled(cfg, s, Receive(t, m))
    ensures Reaches(cfg, s') && s'.tasks == s.tasks[t := Task(m, s.source[m], Received)]
    ensures s' == s.(tasks := s'.tasks)
  {
    s' := ReachesNext(cfg, s, Receive(t, m));
  }

  /** A delivery that is not refused reaches the point where the subscribers are looked up. */
  lemma Admitted(cfg: Config, s: State, t: TaskId) returns (s': State)
    requires Reaches(cfg, s) && Standing(s, t, Received)
    requires s.tasks[t].copy.key.Some? ==> Free(s, s.tasks[t].copy.key.value)
    ensures Reaches(cfg, s') && s'.tasks == s.tasks[t := s.tasks[t].(pc := Entered)]
    ensures s'.source == s.source && s'.dlq == s.dlq && s'.now == s.now && s'.published == s.published
    ensures s'.done == s.done && s'.settled == s.settled && s'.redrives == s.redrives
    ensures s'.claims == match s.tasks[t].copy.key
                         case None => s.claims
                         case Some(name) => Claimed(s.claims, name, s.now, cfg.ttl, cfg.maxEntries)
  {
    s' := ReachesNext(cfg, s, ClaimKey(t));
  }

  /** A message is handed out, its claim won, and its subscribers run. */
  lemma StartsRunning(cfg: Config, s: State, t: TaskId, m: MessageId) returns (s': State)
    requires cfg.subscribers >= 1 && Reaches(cfg, s) && Enabled(cfg, s, Receive(t, m))
    requires s.source[m].key.Some? ==> Free(s, s.source[m].key.value)
    ensures Reaches(cfg, s') && s'.tasks == s.tasks[t := Task(m, s.source[m], Running)]
    ensures s'.source == s.source && s'.dlq == s.dlq && s'.now == s.now && s'.published == s.published
    ensures s'.done == s.done && s'.settled == s.settled && s'.redrives == s.redrives
    ensures s'.claims == match s.source[m].key
                         case None => s.claims
                         case Some(name) => Claimed(s.claims, name, s.now, cfg.ttl, cfg.maxEntries)
  {
    var s1 := Arrives(cfg, s, t, m);
    var s2 := Admitted(cfg, s1, t);
    s' := ReachesNext(cfg, s2, Enter(t));
  }

  /** The first delivery of a new message, with its subscribers running. */
  lemma FirstRuns(cfg: Config, copy: Copy) returns (s: State)
    requires cfg.subscribers >= 1 && KeyFits(cfg, copy)
    ensures Reaches(cfg, s) && s.source == map[0 := copy] && s.tasks == map[1 := Task(0, copy, Running)]
    ensures s.dlq == map[] && s.redrives == map[] && s.done == {} && s.settled == {} && s.now == 0.0
    ensures s.published == {copy.event}
    ensures s.claims == match copy.key
                        case None => map[]
                        case Some(name) => map[name := ExpiryOf(0.0, cfg.ttl)]
  {
    ReachesEmpty(cfg);
    var s1 := Publishes(cfg, EMPTY, 0, copy);
    s := StartsRunning(cfg, s1, 1, 0);
    assert LiveOnly(map[], 0.0) == map[];
  }
}
