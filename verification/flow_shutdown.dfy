/** The end of a flow's node (flow.c): every edge into it from another group signs off with one NULL. */
module FlowShutdown {
  import opened FlowQueue
  import opened QueueEnds
  import opened QueueLaws
  import opened QueueSystem

  /** A step of the queue, or a call of the node's consumer with the next message of the batch. */
  datatype Action<V> = Other(event: Event<Message<V>>) | Consume

  /** An edge pushes through its buffers only, signs off at most once, and sends nothing afterwards. */
  ghost predicate Disciplined<V>(s: System<Message<V>>, e: Event<Message<V>>)
    requires Enabled(s, e)
  {
    Quiet(e) && !e.PushSync? && (e.Push? ==> SignOff !in s.senders[e.i].pushed)
  }

  ghost predicate CanAct<V>(d: Node<V>, a: Action<V>) {
    match a
    case Other(e) => Enabled(d.queue, e) && Disciplined(d.queue, e)
    case Consume => Enabled(d.queue, Deliver(0))
  }

  ghost function Act<V>(d: Node<V>, a: Action<V>): Node<V>
    requires Inv(d.queue) && CanAct(d, a)
  {
    match a
    case Other(e) => d.(queue := Step(d.queue, e))
    case Consume => Consumed(d)
  }

  ghost predicate Acts<V>(d: Node<V>, actions: seq<Action<V>>, d': Node<V>)
    decreases actions
  {
    if actions == [] then d' == d
    else Inv(d.queue) && CanAct(d, actions[0]) && Acts(Act(d, actions[0]), actions[1..], d')
  }

  ghost predicate EdgeInv<V>(l: Sender<Message<V>>) {
    l.synced == [] && EndsOnce(l.pushed)
  }

  /** What every run keeps; n is the number of edges. */
  ghost predicate EdgesInv<V>(d: Node<V>, n: nat) {
    NodeInv(d, n) && forall i: nat :: i < n ==> EdgeInv(d.queue.senders[i])
  }

  /** All that the pipe got from an edge is a prefix of what was pushed on it. */
  lemma EdgePrefix<V>(s: System<Message<V>>, i: nat)
    requires Inv(s) && i < |s.senders| && EdgeInv(s.senders[i])
    ensures From(s.entered, i) <= s.senders[i].pushed && EndsOnce(From(s.entered, i))
  {
    hide Inv, SenderInv;
    SenderAt(s, i);
    SentIsPrefix(s.senders[i], Part(s.entered, i, false), Part(s.entered, i, true));
    NoneDirect(s.entered, i);
    PrefixEndsOnce(From(s.entered, i), s.senders[i].pushed);
  }

  /** A disciplined step adds at most one message to an edge that has not signed off. */
  lemma EdgeStep<V>(s: System<Message<V>>, e: Event<Message<V>>, i: nat)
    requires Inv(s) && Enabled(s, e) && Disciplined(s, e) && i < |s.senders| && EdgeInv(s.senders[i])
    ensures i < |Step(s, e).senders| && EdgeInv(Step(s, e).senders[i])
  {
    SenderAt(s, i);
    hide Inv, Shape, SenderInv, ReceiverInv, Lent, Pending;
    match e {
      case Push(k, x) => OnlyTexts(s.senders[i].pushed);
      case Accept(k, n) =>
      case HandleWrite(k) => SenderAt(s, k);
      case _ =>
    }
  }

  lemma OnlyTexts<V>(s: seq<Message<V>>)
    ensures SignOff !in s ==> forall k :: 0 <= k < |s| ==> s[k].Text?
  {
    forall k | SignOff !in s && 0 <= k < |s| ensures s[k].Text? {
      assert s[k] in s;
    }
  }

  /** Every action keeps the invariant; in particular the count of sources never goes below zero. */
  lemma ActKeeps<V>(d: Node<V>, a: Action<V>, n: nat)
    requires EdgesInv(d, n) && CanAct(d, a)
    ensures EdgesInv(Act(d, a), n)
    ensures Act(d, a).sources >= 0
  {
    hide Inv, Step, Enabled, EdgeInv, From;
    match a {
      case Other(e) =>
        StepKeeps(d.queue, e);
        QuietEffect(d.queue, e);
        forall i: nat | i < n
          ensures EdgeInv(Step(d.queue, e).senders[i]) && EndsOnce(From(Step(d.queue, e).entered, i))
        {
          EdgeStep(d.queue, e, i);
          EdgePrefix(Step(d.queue, e), i);
        }
        QuietKeeps(d, e, n);
        SourcesLeft(Act(d, a), n);
      case Consume => ConsumeKeeps(d, n);
    }
  }

  lemma {:induction false} ActsKeep<V>(d: Node<V>, actions: seq<Action<V>>, d': Node<V>, n: nat)
    requires EdgesInv(d, n) && Acts(d, actions, d')
    ensures EdgesInv(d', n)
    decreases actions
  {
    hide EdgesInv, Act, CanAct;
    if actions != [] {
      ActKeeps(d, actions[0], n);
      ActsKeep(Act(d, actions[0]), actions[1..], d', n);
    }
  }

  /**
   * In every run the consumer is closed exactly when the count is zero; then every edge has signed off, every
   * message of every edge was given to the node in the order of that edge, and nothing is left or lost.
   */
  lemma {:induction false} ShutdownLosesNothing<V>(n: nat, actions: seq<Action<V>>, d: Node<V>)
    requires n > 0 && Acts(Begin(n), actions, d)
    ensures |d.queue.senders| == n && |d.queue.receivers| == 1
    ensures d.queue.receivers[0].box.open <==> d.sources != 0
    ensures !d.queue.receivers[0].box.open ==>
              && (forall i: nat :: i < n ==> From(d.queue.receivers[0].called, i) == d.queue.senders[i].pushed
                                             && SignOff in d.queue.senders[i].pushed)
              && d.queue.pipe == [] && Pending(d.queue.receivers[0]) == [] && d.queue.receivers[0].lost == []
  {
    hide Acts;
    BeginHolds<V>(n);
    ActsKeep(Begin(n), actions, d, n);
    if !d.queue.receivers[0].box.open {
      ClosedAfterAll(d, n);
      forall i: nat | i < n
        ensures From(d.queue.receivers[0].called, i) == d.queue.senders[i].pushed
        ensures SignOff in d.queue.senders[i].pushed
      {
        EdgePrefix(d.queue, i);
        EndReached(From(d.queue.entered, i), d.queue.senders[i].pushed);
      }
    }
  }
}
