/**
 * A queue as a whole: any number of producers and consumers, in any threads, and the pipe between them. The
 * kernel, the handlers and the users of the queue take steps in any order.
 */
module QueueSystem {
  import QueueProducer
  import opened QueueEnds

  /** An element together with the producer that pushed it, and whether it was pushed synchronously. */
  datatype Item<T> = Item(source: nat, sync: bool, value: T)

  /**
   * `entered` is everything that ever went into the pipe, and `readers` says, for the part of it that has left
   * the pipe again, which consumer read it.
   */
  datatype System<T> = System(
    senders: seq<Sender<T>>, receivers: seq<Receiver<Item<T>>>, pipe: seq<Item<T>>,
    entered: seq<Item<T>>, readers: seq<nat>)

  datatype Event<T> =
    | Push(i: nat, x: T)
    | PushSync(i: nat, x: T)
    | Accept(i: nat, n: nat)
    | CutWrite(i: nat)
    | HandleWrite(i: nat)
    | CloseProducer(i: nat)
    | Pop(j: nat)
    | Fill(j: nat, n: nat)
    | CutRead(j: nat)
    | HandleRead(j: nat)
    | Deliver(j: nat)
    | Finish(j: nat)
    | CloseConsumer(j: nat)

  function Tagged<T>(i: nat, sync: bool, xs: seq<T>): (r: seq<Item<T>>)
    ensures |r| == |xs| && forall k :: 0 <= k < |xs| ==> r[k] == Item(i, sync, xs[k])
  {
    seq(|xs|, k requires 0 <= k < |xs| => Item(i, sync, xs[k]))
  }

  /** The values that producer i contributed to a sequence of items, in their order. */
  function From<T>(s: seq<Item<T>>, i: nat): seq<T> {
    if s == [] then []
    else From(s[..|s| - 1], i) + (if s[|s| - 1].source == i then [s[|s| - 1].value] else [])
  }

  /** Those of them that came through its buffers, or that came past them. */
  function Part<T>(s: seq<Item<T>>, i: nat, sync: bool): seq<T> {
    if s == [] then []
    else
      var x := s[|s| - 1];
      Part(s[..|s| - 1], i, sync) + (if x.source == i && x.sync == sync then [x.value] else [])
  }

  /** The items that consumer j has read. */
  function Received<T>(s: seq<Item<T>>, readers: seq<nat>, j: nat): seq<Item<T>>
    requires |readers| <= |s|
    decreases |readers|
  {
    var n := |readers|;
    if n == 0 then []
    else Received(s, readers[..n - 1], j) + (if readers[n - 1] == j then [s[n - 1]] else [])
  }

  ghost predicate Shape<T>(s: System<T>) {
    && |s.readers| <= |s.entered|
    && s.pipe == s.entered[|s.readers|..]
    && (forall k :: 0 <= k < |s.entered| ==> s.entered[k].source < |s.senders|)
    && (forall k :: 0 <= k < |s.readers| ==> s.readers[k] < |s.receivers|)
  }

  /** The invariant of every run. */
  ghost predicate Inv<T>(s: System<T>) {
    && Shape(s)
    && (forall i: nat {:trigger s.senders[i]} :: i < |s.senders| ==>
          SenderInv(s.senders[i], Part(s.entered, i, false), Part(s.entered, i, true)))
    && (forall j: nat {:trigger s.receivers[j]} :: j < |s.receivers| ==>
          ReceiverInv(s.receivers[j], Received(s.entered, s.readers, j)))
  }

  function Start<T>(senders: nat, receivers: nat): System<T> {
    System(seq(senders, _ => NewSender()), seq(receivers, _ => NewReceiver()), [], [], [])
  }

  /** When a step can happen. */
  predicate Enabled<T>(s: System<T>, e: Event<T>) {
    match e
    case Push(i, _) => i < |s.senders| && s.senders[i].box.open
    case PushSync(i, _) => i < |s.senders| && s.senders[i].box.open
    case Accept(i, n) => i < |s.senders| && s.senders[i].op.Writing? && 0 < n <= |Lent(s.senders[i])|
    case CutWrite(i) => i < |s.senders| && s.senders[i].op.Writing?
    case HandleWrite(i) => i < |s.senders| && s.senders[i].op.Wrote?
    case CloseProducer(i) => i < |s.senders| && s.senders[i].box.open
    case Pop(j) => j < |s.receivers| && s.receivers[j].box.open && !s.receivers[j].box.delivering
    case Fill(j, n) => j < |s.receivers| && s.receivers[j].op.Reading? && 0 < n <= |s.pipe|
    case CutRead(j) => j < |s.receivers| && s.receivers[j].op.Reading?
    case HandleRead(j) => j < |s.receivers| && (s.receivers[j].op.Got? || s.receivers[j].op.Cut?)
    case Deliver(j) => j < |s.receivers| && s.receivers[j].box.rest != []
    case Finish(j) => j < |s.receivers| && s.receivers[j].box.delivering && s.receivers[j].box.rest == []
    case CloseConsumer(j) => j < |s.receivers| && s.receivers[j].box.open
  }

  function WithSender<T>(s: System<T>, i: nat, l: Sender<T>): System<T>
    requires i < |s.senders|
  {
    s.(senders := s.senders[i := l])
  }

  function WithReceiver<T>(s: System<T>, j: nat, l: Receiver<Item<T>>): System<T>
    requires j < |s.receivers|
  {
    s.(receivers := s.receivers[j := l])
  }

  /** Elements of producer i go into the pipe. */
  function Entering<T>(s: System<T>, i: nat, sync: bool, xs: seq<T>): System<T> {
    s.(pipe := s.pipe + Tagged(i, sync, xs), entered := s.entered + Tagged(i, sync, xs))
  }

  /** Consumer j takes the first n items out of the pipe. */
  function Leaving<T>(s: System<T>, j: nat, n: nat): System<T>
    requires n <= |s.pipe|
  {
    s.(pipe := s.pipe[n..], readers := s.readers + seq(n, _ => j))
  }

  ghost function Pushing<T>(s: System<T>, i: nat, x: T): System<T>
    requires Inv(s) && i < |s.senders| && s.senders[i].box.open
  {
    SenderAt(s, i);
    WithSender(s, i, AfterPush(s.senders[i], x))
  }

  ghost function Completing<T>(s: System<T>, i: nat): System<T>
    requires Inv(s) && i < |s.senders| && s.senders[i].op.Wrote?
  {
    SenderAt(s, i);
    WithSender(s, i, AfterWrite(s.senders[i]))
  }

  ghost function Closing<T>(s: System<T>, i: nat): System<T>
    requires Inv(s) && i < |s.senders| && s.senders[i].box.open
  {
    SenderAt(s, i);
    WithSender(s, i, SenderClosed(s.senders[i]))
  }

  ghost function Step<T>(s: System<T>, e: Event<T>): System<T>
    requires Inv(s) && Enabled(s, e)
  {
    match e
    case Push(i, x) => Pushing(s, i, x)
    case PushSync(i, x) => WithSender(Entering(s, i, true, [x]), i, AfterPushSync(s.senders[i], x))
    case Accept(i, n) =>
      WithSender(Entering(s, i, false, Lent(s.senders[i])[..n]), i, s.senders[i].(op := Wrote(n)))
    case CutWrite(i) => WithSender(s, i, s.senders[i].(op := Wrote(QueueProducer.INTERRUPTED)))
    case HandleWrite(i) => Completing(s, i)
    case CloseProducer(i) => Closing(s, i)
    case Pop(j) => WithReceiver(s, j, AfterPop(s.receivers[j]))
    case Fill(j, n) => WithReceiver(Leaving(s, j, n), j, s.receivers[j].(op := Got(s.pipe[..n])))
    case CutRead(j) => WithReceiver(s, j, s.receivers[j].(op := Cut))
    case HandleRead(j) => WithReceiver(s, j, AfterRead(s.receivers[j]))
    case Deliver(j) => WithReceiver(s, j, AfterCall(s.receivers[j]))
    case Finish(j) => WithReceiver(s, j, AfterBatch(s.receivers[j]))
    case CloseConsumer(j) => WithReceiver(s, j, ReceiverClosed(s.receivers[j]))
  }

  lemma {:induction false} FromAppend<T>(s: seq<Item<T>>, i: nat, sync: bool, xs: seq<T>, k: nat)
    ensures From(s + Tagged(i, sync, xs), k) == From(s, k) + (if k == i then xs else [])
  {
    hide *;
    if xs == [] {
      assert s + Tagged(i, sync, xs) == s;
    } else {
      var n := |xs| - 1;
      FromAppend(s, i, sync, xs[..n], k);
      TaggedLast(s, i, sync, xs);
      FromLast(s + Tagged(i, sync, xs[..n]), Item(i, sync, xs[n]), k);
      assert xs == xs[..n] + [xs[n]];
      if k == i {
        assert From(s, k) + xs[..n] + [xs[n]] == From(s, k) + xs;
      }
    }
  }

  lemma {:induction false} PartAppend<T>(s: seq<Item<T>>, i: nat, sync: bool, xs: seq<T>, k: nat, b: bool)
    ensures Part(s + Tagged(i, sync, xs), k, b) == Part(s, k, b) + (if k == i && b == sync then xs else [])
  {
    hide *;
    if xs == [] {
      assert s + Tagged(i, sync, xs) == s;
    } else {
      var n := |xs| - 1;
      PartAppend(s, i, sync, xs[..n], k, b);
      TaggedLast(s, i, sync, xs);
      PartLast(s + Tagged(i, sync, xs[..n]), Item(i, sync, xs[n]), k, b);
      assert xs == xs[..n] + [xs[n]];
      if k == i && b == sync {
        assert Part(s, k, b) + xs[..n] + [xs[n]] == Part(s, k, b) + xs;
      }
    }
  }

  lemma TaggedLast<T>(s: seq<Item<T>>, i: nat, sync: bool, xs: seq<T>)
    requires xs != []
    ensures var n := |xs| - 1;
      s + Tagged(i, sync, xs) == s + Tagged(i, sync, xs[..n]) + [Item(i, sync, xs[n])]
  {
  }

  lemma FromLast<T>(s: seq<Item<T>>, x: Item<T>, k: nat)
    ensures From(s + [x], k) == From(s, k) + (if x.source == k then [x.value] else [])
  {
    assert (s + [x])[..|s|] == s;
  }

  lemma PartLast<T>(s: seq<Item<T>>, x: Item<T>, k: nat, b: bool)
    ensures Part(s + [x], k, b) == Part(s, k, b) + (if x.source == k && x.sync == b then [x.value] else [])
  {
    assert (s + [x])[..|s|] == s;
  }

  lemma {:induction false} ReceivedAppend<T>(s: seq<Item<T>>, more: seq<Item<T>>, readers: seq<nat>, j: nat)
    requires |readers| <= |s|
    ensures Received(s + more, readers, j) == Received(s, readers, j)
    decreases |readers|
  {
    if readers != [] {
      ReceivedAppend(s, more, readers[..|readers| - 1], j);
    }
  }

  lemma {:induction false} ReceivedMore<T>(s: seq<Item<T>>, readers: seq<nat>, j: nat, n: nat, k: nat)
    requires |readers| + n <= |s|
    ensures Received(s, readers + seq(n, _ => j), k)
         == Received(s, readers, k) + (if k == j then s[|readers|..|readers| + n] else [])
  {
    hide *;
    if n == 0 {
      assert readers + seq(n, _ => j) == readers;
    } else {
      var fewer, m := readers + seq(n - 1, _ => j), |readers| + n - 1;
      assert readers + seq(n, _ => j) == fewer + [j];
      ReceivedMore(s, readers, j, n - 1, k);
      ReceivedOne(s, fewer, j, k);
      assert s[|readers|..m + 1] == s[|readers|..m] + [s[m]];
    }
  }

  lemma ReceivedOne<T>(s: seq<Item<T>>, readers: seq<nat>, j: nat, k: nat)
    requires |readers| < |s|
    ensures Received(s, readers + [j], k) == Received(s, readers, k) + (if k == j then [s[|readers|]] else [])
  {
    assert (readers + [j])[..|readers|] == readers;
  }

  lemma SenderKept<T>(s: System<T>, i: nat, l: Sender<T>)
    requires Inv(s) && i < |s.senders|
    requires SenderInv(l, Part(s.entered, i, false), Part(s.entered, i, true))
    ensures Inv(WithSender(s, i, l))
  {
    hide SenderInv, ReceiverInv;
  }

  lemma ReceiverKept<T>(s: System<T>, j: nat, l: Receiver<Item<T>>)
    requires Inv(s) && j < |s.receivers|
    requires ReceiverInv(l, Received(s.entered, s.readers, j))
    ensures Inv(WithReceiver(s, j, l))
  {
    hide SenderInv, ReceiverInv;
  }

  lemma EnteringKept<T>(s: System<T>, i: nat, sync: bool, xs: seq<T>, l: Sender<T>)
    requires Inv(s) && i < |s.senders|
    requires SenderInv(l, Part(s.entered, i, false) + (if sync then [] else xs),
                       Part(s.entered, i, true) + (if sync then xs else []))
    ensures Inv(WithSender(Entering(s, i, sync, xs), i, l))
  {
    hide SenderInv, ReceiverInv, Part;
    var s' := WithSender(Entering(s, i, sync, xs), i, l);
    forall k: nat | k < |s.senders|
      ensures SenderInv(s'.senders[k], Part(s'.entered, k, false), Part(s'.entered, k, true))
    {
      PartAppend(s.entered, i, sync, xs, k, false);
      PartAppend(s.entered, i, sync, xs, k, true);
      assert Part(s.entered, k, false) + [] == Part(s.entered, k, false);
      assert Part(s.entered, k, true) + [] == Part(s.entered, k, true);
    }
    forall j: nat | j < |s.receivers| ensures ReceiverInv(s'.receivers[j], Received(s'.entered, s'.readers, j)) {
      ReceivedAppend(s.entered, Tagged(i, sync, xs), s.readers, j);
    }
  }

  lemma LeavingKept<T>(s: System<T>, j: nat, n: nat, l: Receiver<Item<T>>)
    requires Inv(s) && j < |s.receivers| && n <= |s.pipe|
    requires ReceiverInv(l, Received(s.entered, s.readers, j) + s.pipe[..n])
    ensures Inv(WithReceiver(Leaving(s, j, n), j, l))
  {
    hide SenderInv, ReceiverInv;
    var s' := WithReceiver(Leaving(s, j, n), j, l);
    assert s.pipe[..n] == s.entered[|s.readers|..|s.readers| + n];
    forall k: nat | k < |s.receivers| ensures ReceiverInv(s'.receivers[k], Received(s'.entered, s'.readers, k)) {
      ReceivedMore(s.entered, s.readers, j, n, k);
      assert Received(s.entered, s.readers, k) + [] == Received(s.entered, s.readers, k);
    }
  }

  /** Steps on the sending side. */
  lemma SenderStepKeeps<T>(s: System<T>, e: Event<T>)
    requires Inv(s) && Enabled(s, e)
    requires e.Push? || e.PushSync? || e.Accept? || e.CutWrite? || e.HandleWrite? || e.CloseProducer?
    ensures Inv(Step(s, e))
  {
    hide Inv, SenderInv, ReceiverInv, Part;
    match e {
      case Push(i, x) =>
        SenderAt(s, i);
        PushKeeps(s.senders[i], Part(s.entered, i, false), Part(s.entered, i, true), x);
        SenderKept(s, i, AfterPush(s.senders[i], x));
      case PushSync(i, x) =>
        SenderAt(s, i);
        PushSyncKeeps(s.senders[i], Part(s.entered, i, false), Part(s.entered, i, true), x);
        assert Part(s.entered, i, false) + [] == Part(s.entered, i, false);
        EnteringKept(s, i, true, [x], AfterPushSync(s.senders[i], x));
      case Accept(i, n) =>
        SenderAt(s, i);
        AcceptKeeps(s.senders[i], Part(s.entered, i, false), Part(s.entered, i, true), n);
        assert Part(s.entered, i, true) + [] == Part(s.entered, i, true);
        EnteringKept(s, i, false, Lent(s.senders[i])[..n], s.senders[i].(op := Wrote(n)));
      case CutWrite(i) =>
        SenderAt(s, i);
        CutWriteKeeps(s.senders[i], Part(s.entered, i, false), Part(s.entered, i, true));
        SenderKept(s, i, s.senders[i].(op := Wrote(QueueProducer.INTERRUPTED)));
      case HandleWrite(i) =>
        SenderAt(s, i);
        WriteKeeps(s.senders[i], Part(s.entered, i, false), Part(s.entered, i, true));
        SenderKept(s, i, AfterWrite(s.senders[i]));
      case CloseProducer(i) =>
        SenderAt(s, i);
        SenderCloseKeeps(s.senders[i], Part(s.entered, i, false), Part(s.entered, i, true));
        SenderKept(s, i, SenderClosed(s.senders[i]));
    }
  }

  /** Steps on the receiving side. */
  lemma ReceiverStepKeeps<T>(s: System<T>, e: Event<T>)
    requires Inv(s) && Enabled(s, e)
    requires e.Pop? || e.Fill? || e.CutRead? || e.HandleRead? || e.Deliver? || e.Finish? || e.CloseConsumer?
    ensures Inv(Step(s, e))
  {
    hide Inv, SenderInv, ReceiverInv, Received;
    match e {
      case Pop(j) =>
        ReceiverAt(s, j);
        PopKeeps(s.receivers[j], Received(s.entered, s.readers, j));
        ReceiverKept(s, j, AfterPop(s.receivers[j]));
      case Fill(j, n) =>
        ReceiverAt(s, j);
        var past := Received(s.entered, s.readers, j);
        FillKeeps(s.receivers[j], past, s.pipe[..n]);
        LeavingKept(s, j, n, s.receivers[j].(op := Got(s.pipe[..n])));
      case CutRead(j) =>
        ReceiverAt(s, j);
        CutReadKeeps(s.receivers[j], Received(s.entered, s.readers, j));
        ReceiverKept(s, j, s.receivers[j].(op := Cut));
      case HandleRead(j) =>
        ReceiverAt(s, j);
        ReadKeeps(s.receivers[j], Received(s.entered, s.readers, j));
        ReceiverKept(s, j, AfterRead(s.receivers[j]));
      case Deliver(j) =>
        ReceiverAt(s, j);
        CallKeeps(s.receivers[j], Received(s.entered, s.readers, j));
        ReceiverKept(s, j, AfterCall(s.receivers[j]));
      case Finish(j) =>
        ReceiverAt(s, j);
        BatchKeeps(s.receivers[j], Received(s.entered, s.readers, j));
        ReceiverKept(s, j, AfterBatch(s.receivers[j]));
      case CloseConsumer(j) =>
        ReceiverAt(s, j);
        ReceiverCloseKeeps(s.receivers[j], Received(s.entered, s.readers, j));
        ReceiverKept(s, j, ReceiverClosed(s.receivers[j]));
    }
  }

  /** Every step of every party keeps the invariant. */
  lemma StepKeeps<T>(s: System<T>, e: Event<T>)
    requires Inv(s) && Enabled(s, e)
    ensures Inv(Step(s, e))
  {
    hide *;
    match e {
      case Pop(_) => ReceiverStepKeeps(s, e);
      case Fill(_, _) => ReceiverStepKeeps(s, e);
      case CutRead(_) => ReceiverStepKeeps(s, e);
      case HandleRead(_) => ReceiverStepKeeps(s, e);
      case Deliver(_) => ReceiverStepKeeps(s, e);
      case Finish(_) => ReceiverStepKeeps(s, e);
      case CloseConsumer(_) => ReceiverStepKeeps(s, e);
      case _ => SenderStepKeeps(s, e);
    }
  }

  lemma SenderAt<T>(s: System<T>, i: nat)
    requires Inv(s) && i < |s.senders|
    ensures SenderInv(s.senders[i], Part(s.entered, i, false), Part(s.entered, i, true))
  {
  }

  lemma ReceiverAt<T>(s: System<T>, j: nat)
    requires Inv(s) && j < |s.receivers|
    ensures Shape(s) && ReceiverInv(s.receivers[j], Received(s.entered, s.readers, j))
  {
  }
}
