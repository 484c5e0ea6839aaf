/** A message queue with a notification by signal, as the kernel keeps it.

    mq_notify() in chapter 3 of the System Interfaces volume of IEEE Std 1003.1-2017: the
    signal is made pending when a message arrives at an empty queue, and that removes the
    registration. A standard signal that is already pending is not queued twice. */
module MqKernel {
  /** `sent` counts the messages there were at the start as well. `failed` records an
      mq_notify() that found a registration in place. */
  datatype Mq<M(==)> = Mq(queue: seq<M>, registered: bool, pending: bool, failed: bool,
                          sent: multiset<M>, received: multiset<M>)

  function Opened<M>(queue: seq<M>): Mq<M> {
    Mq(queue, false, false, false, multiset(queue), multiset{})
  }

  function Sent<M>(q: Mq<M>, m: M): Mq<M> {
    var q1 := q.(queue := q.queue + [m], sent := q.sent + multiset{m});
    if q.registered && q.queue == [] then q1.(registered := false, pending := true) else q1
  }

  function Registered<M>(q: Mq<M>): Mq<M> {
    if q.registered then q.(failed := true) else q.(registered := true)
  }

  /** Which message mq_receive() picks is left open. */
  function Received<M>(q: Mq<M>, k: nat): Mq<M>
    requires k < |q.queue|
  {
    q.(queue := q.queue[..k] + q.queue[k+1..], received := q.received + multiset{q.queue[k]})
  }

  /** Every message sent is in the queue or has been received, and not both. */
  predicate Conserved<M>(q: Mq<M>) {
    q.sent == q.received + multiset(q.queue)
  }

  lemma ReceivedConserves<M>(q: Mq<M>, k: nat)
    requires k < |q.queue| && Conserved(q)
    ensures Conserved(Received(q, k))
  {
    assert q.queue == q.queue[..k] + [q.queue[k]] + q.queue[k+1..];
  }

  function One(b: bool): nat { if b then 1 else 0 }
}
