/**
 * The queue of a flow's node, or of its log (flow.c): every source signs off with one NULL message, the consumer
 * counts them, and the last one closes it.
 */
module FlowQueue {
  import opened QueueEnds
  import opened QueueLaws
  import opened QueueSystem

  datatype Message<V> = Text(value: V) | SignOff

  /** The queue, and the count of sources that have not signed off yet (consumer_sources, log_consumer_sources). */
  datatype Node<V> = Node(queue: System<Message<V>>, sources: int)

  /** The node after its consumer was opened, with n > 0 sources. */
  function Begin<V>(n: nat): Node<V> {
    var s := Start<Message<V>>(n, 1);
    Node(s.(receivers := [AfterPop(s.receivers[0])]), n)
  }

  /** The count of sources after a message, and whether the message was the last sign-off. */
  function Left<V>(sources: int, message: Message<V>): int {
    if message.SignOff? then sources - 1 else sources
  }

  predicate Closes<V>(sources: int, message: Message<V>) {
    message.SignOff? && Left(sources, message) == 0
  }

  /** The part of a node that its consumer's callback changes. */
  class Inlet<V> {
    var sources: nat
    var open: bool
    // What the node was given, in order.
    var received: seq<V>

    constructor (sources: nat)
      ensures this.sources == sources && open == (sources > 0) && received == []
    {
      this.sources, open, received := sources, sources > 0, [];
    }

    /** flow_node_consumer, and flow_log_queue with the log's receiver. */
    method Consume(message: Message<V>)
      requires message.SignOff? ==> sources > 0
      modifies this
      ensures sources == Left(old(sources), message)
      ensures open == (old(open) && !Closes(old(sources), message))
      ensures received == old(received) + (if message.Text? then [message.value] else [])
    {
      if message.Text? {
        received := received + [message.value];
      } else {
        sources := sources - 1;
        if sources == 0 {
          open := false;
        }
      }
    }
  }

  /** A call of the consumer with the next message of the batch, and what it does with it. */
  ghost function Consumed<V>(d: Node<V>): Node<V>
    requires Inv(d.queue) && Enabled(d.queue, Deliver(0))
  {
    var message := d.queue.receivers[0].box.rest[0].value;
    StepKeeps(d.queue, Deliver(0));
    var q := Step(d.queue, Deliver(0));
    if Closes(d.sources, message) && q.receivers[0].box.open then
      Node(Step(q, CloseConsumer(0)), Left(d.sources, message))
    else Node(q, Left(d.sources, message))
  }

  /** A step of the queue other than a call of the consumer; nothing is closed while the loops run. */
  predicate Quiet<T>(e: Event<T>) {
    !e.Deliver? && !e.CloseConsumer? && !e.CloseProducer?
  }

  /** The number of sign-offs in a sequence of items. */
  function SignOffs<V>(s: seq<Item<Message<V>>>): nat {
    if s == [] then 0
    else SignOffs(s[..|s| - 1]) + (if s[|s| - 1].value.SignOff? then 1 else 0)
  }

  /** If there is a sign-off, it is the last message and the only one. */
  ghost predicate EndsOnce<V>(s: seq<Message<V>>) {
    forall k :: 0 <= k < |s| - 1 ==> s[k].Text?
  }

  /** What every run keeps, if each of the n sources signs off at most once and last. */
  ghost predicate NodeInv<V>(d: Node<V>, n: nat) {
    && Inv(d.queue)
    && |d.queue.senders| == n && |d.queue.receivers| == 1
    && (forall i: nat :: i < n ==> d.queue.senders[i].box.open)
    && (forall i: nat :: i < n ==> EndsOnce(From(d.queue.entered, i)))
    && d.sources + SignOffs(d.queue.receivers[0].called) == n
    && (d.queue.receivers[0].box.open <==> d.sources != 0)
  }

  lemma BeginHolds<V>(n: nat)
    requires n > 0
    ensures NodeInv(Begin<V>(n), n)
    ensures forall i: nat :: i < n ==> Begin<V>(n).queue.senders[i] == NewSender()
    ensures Begin<V>(n).queue.entered == []
  {
    StartHolds<Message<V>>(n, 1);
    var s := Start<Message<V>>(n, 1);
    StepKeeps(s, Pop(0));
    assert Begin<V>(n).queue == Step(s, Pop(0));
    forall i: nat | i < n ensures s.senders[i] == NewSender() {
    }
  }

  lemma CalledEntered<T>(s: System<T>)
    requires Inv(s) && |s.receivers| == 1
    ensures s.entered == s.receivers[0].called + (Pending(s.receivers[0]) + s.receivers[0].lost + s.pipe)
  {
    ReceiverAt(s, 0);
    OnlyReader(s.entered, s.readers);
    hide Inv, Pending;
    assert s.entered == s.entered[..|s.readers|] + s.pipe;
  }

  lemma {:induction false} FromPrefix<T>(a: seq<Item<T>>, b: seq<Item<T>>, i: nat)
    ensures From(a + b, i) == From(a, i) + From(b, i)
  {
    if b == [] {
      assert a + b == a;
    } else {
      FromPrefix(a, b[..|b| - 1], i);
      assert (a + b)[..|a + b| - 1] == a + b[..|b| - 1];
    }
  }

  /** The sources whose sign-off is among the items. */
  function Signers<V>(s: seq<Item<Message<V>>>): set<nat> {
    if s == [] then {}
    else Signers(s[..|s| - 1]) + (if s[|s| - 1].value.SignOff? then {s[|s| - 1].source} else {})
  }

  lemma {:induction false} SignersSignOff<V>(s: seq<Item<Message<V>>>, i: nat)
    ensures i in Signers(s) <==> SignOff in From(s, i)
  {
    if s != [] {
      SignersSignOff(s[..|s| - 1], i);
    }
  }

  lemma {:induction false} SignersCount<V>(s: seq<Item<Message<V>>>)
    requires forall i: nat :: EndsOnce(From(s, i))
    ensures |Signers(s)| == SignOffs(s)
  {
    if s != [] {
      var m, x := |s| - 1, s[|s| - 1];
      forall i: nat ensures EndsOnce(From(s[..m], i)) {
        assert EndsOnce(From(s, i));
        assert From(s[..m], i) <= From(s, i);
      }
      SignersCount(s[..m]);
      if x.value.SignOff? {
        SignersSignOff(s[..m], x.source);
        var f := From(s[..m], x.source);
        assert From(s, x.source) == f + [x.value];
        assert forall k :: 0 <= k < |f| ==> f[k] == From(s, x.source)[k];
      }
    }
  }

  lemma {:induction false} SignersBound<V>(s: seq<Item<Message<V>>>, n: nat)
    requires forall k :: 0 <= k < |s| ==> s[k].source < n
    ensures forall i :: i in Signers(s) ==> i < n
  {
    if s != [] {
      SignersBound(s[..|s| - 1], n);
    }
  }

  lemma {:induction false} SmallSet(a: set<nat>, n: nat)
    requires forall i :: i in a ==> i < n
    ensures |a| <= n
    ensures |a| == n ==> forall i :: 0 <= i < n ==> i in a
  {
    if n > 0 {
      var b := a - {n - 1};
      SmallSet(b, n - 1);
      assert a == if n - 1 in a then b + {n - 1} else b;
    }
  }

  lemma LastFrom<T>(s: seq<Item<T>>)
    requires s != []
    ensures From(s, s[|s| - 1].source) != []
  {
  }

  lemma {:induction false} NothingFrom<T>(s: seq<Item<T>>, n: nat)
    requires forall k :: 0 <= k < |s| ==> s[k].source < n
    requires forall i: nat :: i < n ==> From(s, i) == []
    ensures s == []
  {
    if s != [] {
      LastFrom(s);
    }
  }

  lemma {:induction false} NotFrom<T>(s: seq<Item<T>>, i: nat)
    requires forall k :: 0 <= k < |s| ==> s[k].source < i
    ensures From(s, i) == []
  {
    if s != [] {
      NotFrom(s[..|s| - 1], i);
    }
  }

  /** The items given to the consumer come from the n sources, and each source's part ends with its only sign-off. */
  lemma CalledShape<V>(d: Node<V>, n: nat)
    requires NodeInv(d, n)
    ensures forall k :: 0 <= k < |d.queue.receivers[0].called| ==> d.queue.receivers[0].called[k].source < n
    ensures forall i: nat :: EndsOnce(From(d.queue.receivers[0].called, i))
  {
    var called := d.queue.receivers[0].called;
    CalledEntered(d.queue);
    var rest := Pending(d.queue.receivers[0]) + d.queue.receivers[0].lost + d.queue.pipe;
    assert forall k :: 0 <= k < |called| ==> called[k] == d.queue.entered[k];
    forall i: nat ensures EndsOnce(From(called, i)) {
      if i < n {
        FromPrefix(called, rest, i);
        PrefixEndsOnce(From(called, i), From(d.queue.entered, i));
      } else {
        NotFrom(called, i);
      }
    }
  }

  lemma PrefixEndsOnce<V>(a: seq<Message<V>>, b: seq<Message<V>>)
    requires a <= b && EndsOnce(b)
    ensures EndsOnce(a)
  {
    assert forall k :: 0 <= k < |a| ==> a[k] == b[k];
  }

  lemma EndReached<V>(a: seq<Message<V>>, b: seq<Message<V>>)
    requires a <= b && EndsOnce(b) && SignOff in a
    ensures a == b
  {
    var k :| 0 <= k < |a| && a[k] == SignOff;
    assert b[k] == SignOff;
  }

  /**
   * Once the consumer is closed, every source has signed off, all that ever went into the pipe was given to the
   * consumer, and nothing is left anywhere, the rest of the last batch included.
   */
  lemma ClosedAfterAll<V>(d: Node<V>, n: nat)
    requires NodeInv(d, n) && !d.queue.receivers[0].box.open
    ensures d.queue.entered == d.queue.receivers[0].called
    ensures forall i: nat :: i < n ==> SignOff in From(d.queue.entered, i)
    ensures d.queue.pipe == [] && Pending(d.queue.receivers[0]) == [] && d.queue.receivers[0].lost == []
  {
    var called := d.queue.receivers[0].called;
    CalledShape(d, n);
    SignersCount(called);
    SignersBound(called, n);
    SmallSet(Signers(called), n);
    var rest := Pending(d.queue.receivers[0]) + d.queue.receivers[0].lost + d.queue.pipe;
    CalledEntered(d.queue);
    assert d.queue.entered == called + rest;
    EnteredSources(d.queue);
    assert forall k :: 0 <= k < |rest| ==> rest[k] == d.queue.entered[|called| + k];
    forall i: nat | i < n ensures From(rest, i) == [] && SignOff in From(d.queue.entered, i) {
      SignersSignOff(called, i);
      FromPrefix(called, rest, i);
      EndReached(From(called, i), From(d.queue.entered, i));
    }
    NothingFrom(rest, n);
  }

  lemma EnteredSources<T>(s: System<T>)
    requires Inv(s)
    ensures forall k :: 0 <= k < |s.entered| ==> s.entered[k].source < |s.senders|
  {
  }

  /** The sources that have not signed off to the consumer are at least none. */
  lemma SourcesLeft<V>(d: Node<V>, n: nat)
    requires NodeInv(d, n)
    ensures d.sources >= 0
  {
    CalledShape(d, n);
    SignersCount(d.queue.receivers[0].called);
    SignersBound(d.queue.receivers[0].called, n);
    SmallSet(Signers(d.queue.receivers[0].called), n);
  }

  /** A call adds the next item of the batch to what the consumer was given. */
  lemma DeliverEffect<V>(s: System<Message<V>>)
    requires Inv(s) && |s.receivers| == 1 && Enabled(s, Deliver(0))
    ensures var t := Step(s, Deliver(0));
      && t.senders == s.senders && |t.receivers| == 1 && t.entered == s.entered
      && t.receivers[0].called == s.receivers[0].called + [s.receivers[0].box.rest[0]]
      && t.receivers[0].box.open && s.receivers[0].box.open
  {
    ReceiverAt(s, 0);
    hide Inv;
  }

  lemma CloseEffect<V>(s: System<Message<V>>)
    requires Inv(s) && |s.receivers| == 1 && Enabled(s, CloseConsumer(0))
    ensures var t := Step(s, CloseConsumer(0));
      && t.senders == s.senders && |t.receivers| == 1 && t.entered == s.entered
      && t.receivers[0].called == s.receivers[0].called && !t.receivers[0].box.open
  {
    hide Inv;
  }

  lemma OneMoreCalled<V>(called: seq<Item<Message<V>>>, x: Item<Message<V>>)
    ensures SignOffs(called + [x]) == SignOffs(called) + (if x.value.SignOff? then 1 else 0)
  {
    assert (called + [x])[..|called|] == called;
  }

  lemma ConsumeKeeps<V>(d: Node<V>, n: nat)
    requires NodeInv(d, n) && Enabled(d.queue, Deliver(0))
    ensures NodeInv(Consumed(d), n) && Consumed(d).sources >= 0
    ensures Consumed(d).queue.senders == d.queue.senders && Consumed(d).queue.entered == d.queue.entered
  {
    hide Inv, Step, SignOffs, EndsOnce;
    var s := d.queue;
    StepKeeps(s, Deliver(0));
    var q := Step(s, Deliver(0));
    DeliverEffect(s);
    OneMoreCalled(s.receivers[0].called, s.receivers[0].box.rest[0]);
    assert Enabled(q, CloseConsumer(0));
    StepKeeps(q, CloseConsumer(0));
    CloseEffect(q);
    SourcesLeft(d, n);
    assert NodeInv(Consumed(d), n);
    SourcesLeft(Consumed(d), n);
  }

  /** The values among messages. */
  function Values<V>(s: seq<Item<Message<V>>>): seq<V> {
    if s == [] then []
    else Values(s[..|s| - 1]) + (if s[|s| - 1].value.Text? then [s[|s| - 1].value.value] else [])
  }

  lemma OneMoreValue<V>(s: seq<Item<Message<V>>>, x: Item<Message<V>>)
    ensures Values(s + [x]) == Values(s) + (if x.value.Text? then [x.value.value] else [])
  {
    assert (s + [x])[..|s|] == s;
  }

  /** The callback's object has the count, the open flag and the values of the node. */
  ghost predicate Mirrors<V>(inlet: Inlet<V>, d: Node<V>)
    reads inlet
  {
    && |d.queue.receivers| == 1
    && inlet.sources == d.sources && inlet.open == d.queue.receivers[0].box.open
    && inlet.received == Values(d.queue.receivers[0].called)
  }

  /** What Consumed does to the count, the flag and the messages given to the consumer. */
  lemma ConsumedIs<V>(d: Node<V>, n: nat)
    requires NodeInv(d, n) && Enabled(d.queue, Deliver(0))
    ensures |Consumed(d).queue.receivers| == 1
    ensures var r, r', x := d.queue.receivers[0], Consumed(d).queue.receivers[0], d.queue.receivers[0].box.rest[0];
      && Consumed(d).sources == Left(d.sources, x.value)
      && (r'.box.open <==> r.box.open && !Closes(d.sources, x.value))
      && r'.called == r.called + [x]
  {
    hide Inv, Step, SignOffs, EndsOnce;
    var s := d.queue;
    StepKeeps(s, Deliver(0));
    var q := Step(s, Deliver(0));
    DeliverEffect(s);
    assert Enabled(q, CloseConsumer(0));
    CloseEffect(q);
  }

  /** The callback does to its object what the step does to the node. */
  method ConsumeNext<V>(inlet: Inlet<V>, message: Message<V>, ghost d: Node<V>, ghost n: nat)
    requires NodeInv(d, n) && Enabled(d.queue, Deliver(0)) && Mirrors(inlet, d)
    requires message == d.queue.receivers[0].box.rest[0].value
    modifies inlet
    ensures Mirrors(inlet, Consumed(d))
  {
    hide Inv, Step, NodeInv, Consumed, Values;
    ConsumedIs(d, n);
    ConsumeKeeps(d, n);
    OneMoreValue(d.queue.receivers[0].called, d.queue.receivers[0].box.rest[0]);
    inlet.Consume(message);
  }

  /** What a quiet step leaves alone. */
  lemma QuietEffect<T>(s: System<T>, e: Event<T>)
    requires Inv(s) && Enabled(s, e) && Quiet(e)
    ensures |Step(s, e).senders| == |s.senders| && |Step(s, e).receivers| == |s.receivers|
    ensures forall i: nat :: i < |s.senders| ==> Step(s, e).senders[i].box.open == s.senders[i].box.open
    ensures forall j: nat :: j < |s.receivers| ==>
              && Step(s, e).receivers[j].called == s.receivers[j].called
              && Step(s, e).receivers[j].box.open == s.receivers[j].box.open
  {
    hide Shape, SenderInv, ReceiverInv, Lent, Pending;
    match e {
      case Push(i, x) =>
      case PushSync(i, x) =>
      case Accept(i, n) =>
      case HandleWrite(i) => SenderAt(s, i);
      case _ =>
    }
  }

  /** A quiet step keeps the invariant if the sources still sign off last. */
  lemma QuietKeeps<V>(d: Node<V>, e: Event<Message<V>>, n: nat)
    requires NodeInv(d, n) && Enabled(d.queue, e) && Quiet(e)
    requires forall i: nat :: i < n ==> EndsOnce(From(Step(d.queue, e).entered, i))
    ensures NodeInv(d.(queue := Step(d.queue, e)), n)
  {
    hide Inv, SignOffs, Step, Enabled, Quiet, EndsOnce, From;
    StepKeeps(d.queue, e);
    QuietEffect(d.queue, e);
  }
}
