/** Acknowledgement, dead-lettering and redrive as they run: two queues whose sends and deletes can fail at
    any moment. `Protocol` interleaves many of them. */
module DeadLetters {
  import opened Wrappers
  import opened Ledgers

  type Queue = map<MessageId, Event>

  /** What happens to a queue call: it succeeds, is refused with ClientError (swallowed by the
      acknowledger), or raises something else; a failing call may still have taken effect. */
  datatype CallResult = Done | Refused(effect: bool) | Broken(effect: bool)

  predicate TookEffect(r: CallResult) {
    r.Done? || r.effect
  }

  /** The source after the received dead letters were sent back to it, the first as message `first`. */
  function Resent(source: Queue, dlq: Queue, received: seq<MessageId>, first: MessageId): Queue
    requires forall m | m in received :: m in dlq
  {
    if received == [] then source
    else
      var n := |received| - 1;
      Resent(source, dlq, received[..n], first)[first + n := dlq[received[n]]]
  }

  /** The dead letters without the received ones. */
  function Left(dlq: Queue, received: seq<MessageId>): Queue {
    map m | m in dlq && m !in received :: dlq[m]
  }

  lemma MovedOneMore(source: Queue, dlq: Queue, received: seq<MessageId>, first: MessageId, i: nat)
    requires i < |received| && (forall m | m in received :: m in dlq) && received[i] !in received[..i]
    ensures received[i] in Left(dlq, received[..i]) && Left(dlq, received[..i])[received[i]] == dlq[received[i]]
    ensures Left(dlq, received[..i + 1]) == Left(dlq, received[..i]) - {received[i]}
    ensures Resent(source, dlq, received[..i + 1], first)
         == Resent(source, dlq, received[..i], first)[first + i := dlq[received[i]]]
  {
    assert received[..i + 1] == received[..i] + [received[i]];
    assert received[..i + 1][..i] == received[..i];
  }

  lemma NothingMoved(source: Queue, dlq: Queue, first: MessageId)
    ensures Left(dlq, []) == dlq && Resent(source, dlq, [], first) == source
  {
  }

  class Queues {
    var source: Queue
    var dlq: Queue
    var nextId: MessageId
    ghost var ledger: Ledger
    ghost var events: set<Event>  // the events of the messages there were at the start
    ghost var handled: set<Event> // the events every subscriber has handled

    /** Copies are conserved: they balance with the ledger, deletes of copied messages never outnumber the
        sends, and every event that is not handled has a copy in one of the queues. */
    ghost predicate Conserved()
      reads this
    {
      && Balanced(source, dlq, ledger)
      && ledger.moved <= ledger.sent
      && (forall e | e in events :: e in handled || e in source.Values || e in dlq.Values)
      && (forall m | m in source || m in dlq :: m < nextId)
    }

    constructor (source: Queue, dlq: Queue, nextId: MessageId)
      requires forall m | m in source || m in dlq :: m < nextId
      ensures Conserved() && this.source == source && this.dlq == dlq && handled == {}
      ensures ledger == Ledger(|source| + |dlq|, 0, 0, 0) && events == source.Values + dlq.Values
    {
      this.source, this.dlq, this.nextId := source, dlq, nextId;
      ledger, events, handled := Ledger(|source| + |dlq|, 0, 0, 0), source.Values + dlq.Values, {};
    }

    /** A copy of an event is sent to one of the queues. */
    method Send(toDlq: bool, event: Event, result: CallResult) returns (sent: MessageId)
      requires Conserved()
      modifies this`source, this`dlq, this`nextId, this`ledger
      ensures Conserved() && sent == old(nextId) && nextId == old(nextId) + 1
      ensures source == if !toDlq && (result.Done? || result.effect) then old(source)[sent := event] else old(source)
      ensures dlq == if toDlq && (result.Done? || result.effect) then old(dlq)[sent := event] else old(dlq)
      ensures ledger == if result.Done? || result.effect then old(ledger).(sent := old(ledger.sent) + 1)
                        else old(ledger)
    {
      sent := nextId;
      nextId := nextId + 1;
      if TookEffect(result) {
        InsertCopy(source, sent, event);
        InsertCopy(dlq, sent, event);
        if toDlq {
          dlq := dlq[sent := event];
        } else {
          source := source[sent := event];
        }
        ledger := ledger.(sent := ledger.sent + 1);
      }
    }

    /** A message is deleted from one of the queues: it was handled, or a copy of it was sent to the other. */
    method Delete(fromDlq: bool, m: MessageId, ghost copied: bool, result: CallResult)
      requires Conserved() && m in (if fromDlq then dlq else source) && (copied ==> ledger.moved < ledger.sent)
      requires copied ==> (if fromDlq then dlq else source)[m] in (if fromDlq then source else dlq).Values
      requires !copied ==> (if fromDlq then dlq else source)[m] in handled
      modifies this`source, this`dlq, this`ledger
      ensures Conserved()
      ensures source == if !fromDlq && (result.Done? || result.effect) then old(source) - {m} else old(source)
      ensures dlq == if fromDlq && (result.Done? || result.effect) then old(dlq) - {m} else old(dlq)
      ensures ledger == if !result.Done? && !result.effect then old(ledger)
                        else if copied then old(ledger).(moved := old(ledger.moved) + 1)
                        else old(ledger).(consumed := old(ledger.consumed) + 1)
    {
      if TookEffect(result) {
        RemoveCopy(source, m);
        RemoveCopy(dlq, m);
        if fromDlq {
          dlq := dlq - {m};
        } else {
          source := source - {m};
        }
        ledger := if copied then ledger.(moved := ledger.moved + 1) else ledger.(consumed := ledger.consumed + 1);
      }
    }

    /** sqs.py, `ack` of a message that every subscriber has handled: its last copy may go. */
    method Acknowledge(m: MessageId, result: CallResult) returns (raised: bool)
      requires Conserved() && m in source
      modifies this`source, this`dlq, this`ledger, this`handled
      ensures Conserved() && raised == result.Broken? && dlq == old(dlq)
      ensures handled == old(handled) + {old(source)[m]}
      ensures source == if (result.Done? || result.effect) then old(source) - {m} else old(source)
      ensures ledger == if result.Done? || result.effect then old(ledger).(consumed := old(ledger.consumed) + 1)
                        else old(ledger)
    {
      handled := handled + {source[m]};
      Delete(false, m, false, result);
      raised := result.Broken?;
    }

    /** sqs.py, `dlq` followed by `ack`: the message is sent to the dead letters, then deleted from the
        source; a refused send leaves it in the source. */
    method DeadLetter(m: MessageId, send: CallResult, delete: CallResult) returns (raised: bool)
      requires Conserved() && m in source
      modifies this`source, this`dlq, this`nextId, this`ledger
      ensures Conserved()
      ensures raised == (send.Broken? || (send.Done? && delete.Broken?))
      ensures dlq == if (send.Done? || send.effect) then old(dlq)[old(nextId) := old(source)[m]] else old(dlq)
      ensures source == if send.Done? && (delete.Done? || delete.effect) then old(source) - {m} else old(source)
    {
      var copy := Send(true, source[m], send);
      if !send.Done? {
        return send.Broken?;
      }
      assert dlq[copy] == source[m];
      Delete(false, m, true, delete);
      raised := delete.Broken?;
    }

    /** One dead letter of a redrive: sent to the source, then deleted. */
    method RedriveOne(m: MessageId, send: CallResult, delete: CallResult) returns (raised: bool)
      requires Conserved() && m in dlq
      modifies this`source, this`dlq, this`nextId, this`ledger
      ensures Conserved()
      ensures raised == !(send.Done? && delete.Done?)
      ensures source == if (send.Done? || send.effect) then old(source)[old(nextId) := old(dlq)[m]] else old(source)
      ensures dlq == if send.Done? && (delete.Done? || delete.effect) then old(dlq) - {m} else old(dlq)
      ensures !raised ==> nextId == old(nextId) + 1
      ensures !raised ==> ledger.sent - ledger.moved == old(ledger.sent - ledger.moved)
    {
      var copy := Send(false, dlq[m], send);
      if !send.Done? {
        return true;
      }
      assert source[copy] == dlq[m];
      Delete(true, m, true, delete);
      raised := !delete.Done?;
    }

    /** redriver.py, `redrive`: the first failing call ends the run with an exception; a run that
        finishes has moved every received message and returns their number. */
    method Redrive(maxMessages: int, received: seq<MessageId>,
                   sendResults: seq<CallResult>, deleteResults: seq<CallResult>)
      returns (raised: bool, count: nat)
      requires Conserved() && |sendResults| == |deleteResults| == |received|
      requires |received| <= Max(0, Min(maxMessages, 10))
      requires forall m | m in received :: m in dlq
      requires forall i, j | 0 <= i < j < |received| :: received[i] != received[j]
      modifies this`source, this`dlq, this`nextId, this`ledger
      ensures Conserved()
      ensures !raised <==> forall i | 0 <= i < |received| :: sendResults[i].Done? && deleteResults[i].Done?
      ensures !raised ==> count == |received| && count <= Max(0, maxMessages)
      ensures !raised ==> dlq == Left(old(dlq), received)
      ensures !raised ==> source == Resent(old(source), old(dlq), received, old(nextId))
      ensures !raised ==> ledger.sent - ledger.moved == old(ledger.sent - ledger.moved)
    {
      hide Left, Resent, Conserved;
      count := 0;
      NothingMoved(source, dlq, nextId);
      assert received[..0] == [];
      for i := 0 to |received|
        invariant Conserved() && count == i && nextId == old(nextId) + i
        invariant forall j | 0 <= j < i :: sendResults[j].Done? && deleteResults[j].Done?
        invariant dlq == Left(old(dlq), received[..i])
        invariant source == Resent(old(source), old(dlq), received[..i], old(nextId))
        invariant ledger.sent - ledger.moved == old(ledger.sent - ledger.moved)
      {
        assert received[i] !in received[..i];
        MovedOneMore(old(source), old(dlq), received, old(nextId), i);
        var failed := RedriveOne(received[i], sendResults[i], deleteResults[i]);
        if failed {
          return true, count;
        }
        count := count + 1;
      }
      assert received[..|received|] == received;
      raised := false;
    }
  }

  lemma InsertCopy(q: Queue, m: MessageId, event: Event)
    ensures m !in q ==> |q[m := event]| == |q| + 1 && forall e | e in q.Values :: e in q[m := event].Values
  {
    if m !in q {
      Inserted(q, m, event);
      forall e | e in q.Values ensures e in q[m := event].Values {
        var k :| k in q && q[k] == e;
        assert q[m := event][k] == e;
      }
    }
  }

  lemma RemoveCopy(q: Queue, m: MessageId)
    ensures m in q ==> |q - {m}| == |q| - 1 && forall e | e in q.Values && e != q[m] :: e in (q - {m}).Values
  {
    if m in q {
      Removed(q, m);
      forall e | e in q.Values && e != q[m] ensures e in (q - {m}).Values {
        var k :| k in q && q[k] == e;
        assert (q - {m})[k] == e;
      }
    }
  }
}
