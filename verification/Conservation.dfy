/** Copies of messages are conserved over every run of the protocol. */
module Conservation {
  import opened Wrappers
  import opened Ledgers
  import opened Protocol

  /** The deliveries whose message was sent to the dead letters and is deleted next. */
  function Diverting(s: State): set<TaskId> {
    set t | t in s.tasks && s.tasks[t].pc.Diverted?
  }

  /** The redrives whose dead letter was sent back and is deleted next. */
  function Returning(s: State): set<RedriveId> {
    set r | r in s.redrives && s.redrives[r].sent
  }

  /** Each send pays for at most one delete of the message it copies, made or still to come. */
  predicate Paid(s: State) {
    s.ledger.moved + |Returning(s)| + |Diverting(s)| <= s.ledger.sent
  }

  lemma QueuesBalance(cfg: Config, s: State, step: Step)
    requires Enabled(cfg, s, step) && Balanced(s.source, s.dlq, s.ledger)
    ensures Balanced(SourceAfter(s, step), DlqAfter(s, step), LedgerAfter(s, step))
  {
    match step
    case Publish(m, copy) => Inserted(s.source, m, copy);
    case AckMessage(t, _, _) => Removed(s.source, s.tasks[t].message);
    case SendToDlq(t, d, _, _) => Inserted(s.dlq, d, s.tasks[t].copy.event);
    case RedriveSend(r, m, key, _, _) => Inserted(s.source, m, Copy(s.redrives[r].event, key));
    case RedriveDelete(r, _) => Removed(s.dlq, s.redrives[r].letter);
    case _ =>
  }

  lemma StepConservesCopies(cfg: Config, s: State, step: Step)
    requires Enabled(cfg, s, step) && Balanced(s.source, s.dlq, s.ledger)
    ensures var s' := Take(cfg, s, step); Balanced(s'.source, s'.dlq, s'.ledger)
  {
    hide Enabled, Balanced, SourceAfter, DlqAfter, LedgerAfter, TasksAfter;
    QueuesBalance(cfg, s, step);
  }

  lemma DivertingMoves(cfg: Config, s: State, step: Step, t: TaskId)
    requires Enabled(cfg, s, step) && Mover(step) == Some(t)
    ensures Diverting(Take(cfg, s, step)) ==
            if step.SendToDlq? && step.result == Sent then Diverting(s) + {t} else Diverting(s) - {t}
  {
    var s' := Take(cfg, s, step);
    forall u: TaskId | u != t ensures u in Diverting(s') <==> u in Diverting(s) {
      OthersStay(cfg, s, step, u);
    }
  }

  lemma MoverPays(cfg: Config, s: State, step: Step, t: TaskId)
    requires Enabled(cfg, s, step) && Paid(s) && Mover(step) == Some(t)
    ensures Paid(Take(cfg, s, step))
  {
    DivertingMoves(cfg, s, step, t);
    assert Returning(Take(cfg, s, step)) == Returning(s);
  }

  lemma RedrivePays(cfg: Config, s: State, step: Step)
    requires Enabled(cfg, s, step) && Paid(s) && Mover(step) == None
    ensures Paid(Take(cfg, s, step))
  {
    var s' := Take(cfg, s, step);
    assert Diverting(s') == Diverting(s);
    if step.RedriveDelete? {
      assert Returning(s') == Returning(s) - {step.r};
    } else {
      assert Returning(s') == if step.RedriveSend? && step.sent then Returning(s) + {step.r} else Returning(s);
    }
  }

  lemma StepPaysForDeletes(cfg: Config, s: State, step: Step)
    requires Enabled(cfg, s, step) && Paid(s)
    ensures Paid(Take(cfg, s, step))
  {
    hide Take, Enabled, Paid;
    if Mover(step).Some? {
      MoverPays(cfg, s, step, Mover(step).value);
    } else {
      RedrivePays(cfg, s, step);
    }
  }

  lemma EmptyIsBalanced()
    ensures Balanced(EMPTY.source, EMPTY.dlq, EMPTY.ledger) && Paid(EMPTY)
  {
    assert Diverting(EMPTY) == {} && Returning(EMPTY) == {};
  }

  /** At every state of every run the copies in both queues exceed the messages that arrived and were not
      acknowledged by exactly the sends whose delete has not taken effect, and each delete is paid for. */
  lemma {:induction false} CopiesConserved(cfg: Config, run: seq<State>, i: nat)
    requires IsRun(cfg, run) && i < |run|
    ensures Balanced(run[i].source, run[i].dlq, run[i].ledger) && Paid(run[i])
  {
    hide Take, Enabled, Paid, Balanced;
    if i > 0 {
      CopiesConserved(cfg, run, i - 1);
      var step := StepOf(cfg, run, i - 1);
      StepConservesCopies(cfg, run[i - 1], step);
      StepPaysForDeletes(cfg, run[i - 1], step);
    } else {
      EmptyIsBalanced();
    }
  }
}
