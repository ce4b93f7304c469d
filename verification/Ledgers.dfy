/** Counting the copies of messages in a queue and its dead-letter queue. */
module Ledgers {
  type MessageId = nat

  /** What a message is a copy of. */
  type Event = int

  /** Messages that arrived, copies sent on, and deletes that took effect: of a message whose copy was
      sent on, and of an acknowledged one. */
  datatype Ledger = Ledger(arrived: nat, sent: nat, moved: nat, consumed: nat)

  /** There are as many copies as messages that arrived and copies sent, less the deletes that took effect. */
  predicate Balanced<A, B>(source: map<nat, A>, dlq: map<nat, B>, l: Ledger) {
    |source| + |dlq| + l.moved + l.consumed == l.arrived + l.sent
  }

  lemma Inserted<V>(q: map<nat, V>, m: nat, v: V)
    ensures |q[m := v]| == if m in q then |q| else |q| + 1
  {
    assert q[m := v].Keys == q.Keys + {m};
  }

  lemma Removed<V>(q: map<nat, V>, m: nat)
    ensures |q - {m}| == if m in q then |q| - 1 else |q|
  {
    assert (q - {m}).Keys == q.Keys - {m};
  }
}
