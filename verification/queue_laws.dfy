/** What every run of a queue keeps: order, conservation, and the memory lent to the kernel. */
module QueueLaws {
  import P = QueueProducer
  import opened QueueEnds
  import opened QueueSystem

  ghost predicate Run<T>(s: System<T>, events: seq<Event<T>>, t: System<T>)
    decreases events
  {
    if events == [] then t == s
    else Inv(s) && Enabled(s, events[0]) && Run(Step(s, events[0]), events[1..], t)
  }

  lemma {:induction false} StartHolds<T>(senders: nat, receivers: nat)
    ensures Inv(Start<T>(senders, receivers))
  {
    var s := Start<T>(senders, receivers);
    forall i: nat | i < senders ensures SenderInv(s.senders[i], Part(s.entered, i, false), Part(s.entered, i, true)) {
      assert s.senders[i] == NewSender();
    }
    forall j: nat | j < receivers ensures ReceiverInv(s.receivers[j], Received(s.entered, s.readers, j)) {
      assert s.receivers[j] == NewReceiver();
    }
  }

  lemma {:induction false} RunKeeps<T>(s: System<T>, events: seq<Event<T>>, t: System<T>)
    requires Inv(s) && Run(s, events, t)
    ensures Inv(t)
    decreases events
  {
    hide Inv, Step, Enabled;
    if events != [] {
      StepKeeps(s, events[0]);
      RunKeeps(Step(s, events[0]), events[1..], t);
    }
  }

  lemma SentIsPrefix<T>(l: Sender<T>, past: seq<T>, direct: seq<T>)
    requires SenderInv(l, past, direct)
    ensures past <= l.pushed && direct == l.synced
    ensures l.box.open && l.box.write == 0 ==> past == l.pushed
  {
    var rest := Held(l) + l.dropped;
    assert l.pushed == past + rest;
  }

  lemma {:induction false} NoneDirect<T>(s: seq<Item<T>>, i: nat)
    requires Part(s, i, true) == []
    ensures From(s, i) == Part(s, i, false)
  {
    if s != [] {
      NoneDirect(s[..|s| - 1], i);
    }
  }

  /**
   * The pipe gets what a producer pushes in push order, and all of it as soon as no write is pending. It gets
   * synchronous pushes at once, in their order too; how the two go together is the matter of SyncOrder.
   */
  lemma {:induction false} PipeOrder<T>(senders: nat, receivers: nat, events: seq<Event<T>>, t: System<T>, i: nat)
    requires Run(Start(senders, receivers), events, t) && i < |t.senders|
    ensures Part(t.entered, i, false) <= t.senders[i].pushed
    ensures t.senders[i].box.open && t.senders[i].box.write == 0 ==> Part(t.entered, i, false) == t.senders[i].pushed
    ensures Part(t.entered, i, true) == t.senders[i].synced
    ensures t.senders[i].synced == [] ==> From(t.entered, i) == Part(t.entered, i, false)
  {
    hide *;
    StartHolds<T>(senders, receivers);
    RunKeeps(Start(senders, receivers), events, t);
    SenderAt(t, i);
    SentIsPrefix(t.senders[i], Part(t.entered, i, false), Part(t.entered, i, true));
    if t.senders[i].synced == [] {
      NoneDirect(t.entered, i);
    }
  }

  /** With one consumer, the callbacks follow the order of the pipe, and nothing is lost before it is closed. */
  lemma {:induction false} ReadOrder<T>(senders: nat, events: seq<Event<T>>, t: System<T>)
    requires Run(Start(senders, 1), events, t)
    ensures |t.receivers| == 1
    ensures t.receivers[0].called <= t.entered
    ensures t.receivers[0].box.open ==>
              t.entered == t.receivers[0].called + Pending(t.receivers[0]) + t.pipe
  {
    hide Run;
    StartHolds<T>(senders, 1);
    RunKeeps(Start(senders, 1), events, t);
    SameEnds(Start(senders, 1), events, t);
    ReceiverAt(t, 0);
    OnlyReader(t.entered, t.readers);
    assert t.entered == t.entered[..|t.readers|] + t.pipe;
  }

  lemma {:induction false} SameEnds<T>(s: System<T>, events: seq<Event<T>>, t: System<T>)
    requires Run(s, events, t)
    ensures |t.senders| == |s.senders| && |t.receivers| == |s.receivers|
    decreases events
  {
    hide Inv, Step, Enabled;
    if events != [] {
      SameEndsStep(s, events[0]);
      SameEnds(Step(s, events[0]), events[1..], t);
    }
  }

  lemma SameEndsStep<T>(s: System<T>, e: Event<T>)
    requires Inv(s) && Enabled(s, e)
    ensures |Step(s, e).senders| == |s.senders| && |Step(s, e).receivers| == |s.receivers|
  {
    hide Inv;
  }

  lemma {:induction false} OnlyReader<T>(s: seq<Item<T>>, readers: seq<nat>)
    requires |readers| <= |s| && forall k :: 0 <= k < |readers| ==> readers[k] < 1
    ensures Received(s, readers, 0) == s[..|readers|]
    decreases |readers|
  {
    if readers != [] {
      OnlyReader(s, readers[..|readers| - 1]);
    }
  }

  /** While a write is pending, no step but its own completion changes the memory lent to it. */
  lemma LoanUntouched<T>(s: System<T>, e: Event<T>, i: nat)
    requires Inv(s) && Enabled(s, e) && i < |s.senders|
    requires !s.senders[i].op.NoWrite? && e != HandleWrite(i)
    ensures i < |Step(s, e).senders| && Lent(Step(s, e).senders[i]) == Lent(s.senders[i]) != []
  {
    hide *;
    SenderSound(s, i);
    match e {
      case Push(k, x) =>
        SendersAfterPush(s, k, x);
        LoanOnPush(s.senders[i], x);
      case PushSync(k, x) =>
        SendersAfterRecord(s, e, k);
        LoanOnRecord(s.senders[i], s.senders[i].op, s.senders[i].synced + [x]);
      case Accept(k, n) =>
        SendersAfterRecord(s, e, k);
        LoanOnRecord(s.senders[i], Wrote(n), s.senders[i].synced + []);
      case CutWrite(k) =>
        SendersAfterRecord(s, e, k);
        LoanOnRecord(s.senders[i], Wrote(P.INTERRUPTED), s.senders[i].synced + []);
      case HandleWrite(k) =>
        SendersAfterWrite(s, k);
      case CloseProducer(k) =>
        SendersAfterClose(s, k);
        LoanOnClose(s.senders[i]);
      case _ =>
        SendersAfterRead(s, e);
    }
  }

  lemma SenderSound<T>(s: System<T>, i: nat)
    requires Inv(s) && i < |s.senders|
    ensures Sound(s.senders[i]) && (s.senders[i].op.NoWrite? <==> Lent(s.senders[i]) == [])
  {
    SenderAt(s, i);
  }

  lemma SendersAfterPush<T>(s: System<T>, k: nat, x: T)
    requires Inv(s) && Enabled(s, Push(k, x))
    ensures k < |s.senders| && s.senders[k].box.open && Sound(s.senders[k])
    ensures Step(s, Push(k, x)).senders == s.senders[k := AfterPush(s.senders[k], x)]
    ensures Step(s, Push(k, x)).entered == s.entered
  {
    SenderAt(s, k);
    hide Inv, Sound, AfterPush;
  }

  lemma SendersAfterRecord<T>(s: System<T>, e: Event<T>, k: nat)
    requires Inv(s) && Enabled(s, e)
    requires e.PushSync? || e.Accept? || e.CutWrite?
    requires k == e.i
    ensures k < |s.senders|
    ensures Step(s, e).senders == s.senders[k := s.senders[k].(
      op := if e.Accept? then Wrote(e.n) else if e.CutWrite? then Wrote(P.INTERRUPTED) else s.senders[k].op,
      synced := s.senders[k].synced + (if e.PushSync? then [e.x] else []))]
    ensures Step(s, e).entered == s.entered + Tagged(k, e.PushSync?,
      if e.PushSync? then [e.x] else if e.Accept? then Lent(s.senders[k])[..e.n] else [])
  {
    hide Inv, Sound, Lent;
    assert s.senders[k].synced + [] == s.senders[k].synced;
    assert s.entered + Tagged<T>(k, false, []) == s.entered;
  }

  lemma SendersAfterWrite<T>(s: System<T>, k: nat)
    requires Inv(s) && Enabled(s, HandleWrite(k))
    ensures k < |s.senders| && Sound(s.senders[k]) && s.senders[k].op.Wrote?
    ensures Step(s, HandleWrite(k)).senders == s.senders[k := AfterWrite(s.senders[k])]
    ensures Step(s, HandleWrite(k)).entered == s.entered
  {
    SenderAt(s, k);
    hide Inv, Sound, AfterWrite;
  }

  lemma SendersAfterClose<T>(s: System<T>, k: nat)
    requires Inv(s) && Enabled(s, CloseProducer(k))
    ensures k < |s.senders| && s.senders[k].box.open && Sound(s.senders[k])
    ensures Step(s, CloseProducer(k)).senders == s.senders[k := SenderClosed(s.senders[k])]
  {
    SenderAt(s, k);
    hide Inv, Sound, SenderClosed;
  }

  lemma SendersAfterRead<T>(s: System<T>, e: Event<T>)
    requires Inv(s) && Enabled(s, e)
    requires e.Pop? || e.Fill? || e.CutRead? || e.HandleRead? || e.Deliver? || e.Finish? || e.CloseConsumer?
    ensures Step(s, e).senders == s.senders && Step(s, e).entered == s.entered
  {
    hide Inv;
  }

  lemma LoanOnRecord<T>(l: Sender<T>, op: WriteOp, synced: seq<T>)
    ensures Lent(l.(op := op, synced := synced)) == Lent(l)
  {
  }

  lemma LoanOnPush<T>(l: Sender<T>, x: T)
    requires Sound(l) && !l.op.NoWrite?
    ensures l.box.open ==> Lent(AfterPush(l, x)) == Lent(l)
  {
    LoanIsFirst(l);
  }

  lemma LoanOnClose<T>(l: Sender<T>)
    requires Sound(l) && !l.op.NoWrite?
    ensures l.box.open ==> Lent(SenderClosed(l)) == Lent(l)
  {
    LoanIsFirst(l);
  }

  /**
   * An element pushed synchronously keeps its place behind the elements pushed before it exactly when those
   * still waiting are all equal to it; so a caller who cannot tell must see that no write is pending.
   */
  lemma {:induction false} SyncOrder<T>(l: Sender<T>, past: seq<T>, direct: seq<T>, x: T)
    requires SenderInv(l, past, direct) && l.box.open
    ensures past + [x] + Held(l) == l.pushed + [x] <==> forall k :: 0 <= k < |Held(l)| ==> Held(l)[k] == x
    ensures l.box.write == 0 ==> Held(l) == []
  {
    var h := Held(l);
    assert l.pushed == past + h;
    if forall k :: 0 <= k < |h| ==> h[k] == x {
      assert past + [x] + h == past + h + [x];
    }
    if past + [x] + h == l.pushed + [x] {
      forall k | 0 <= k < |h| ensures h[k] == x {
        Shifted(h, x, past, k);
      }
    }
  }

  lemma {:induction false} Shifted<T>(h: seq<T>, x: T, past: seq<T>, k: nat)
    requires past + [x] + h == past + h + [x] && k < |h|
    ensures h[k] == x
  {
    assert (past + [x] + h)[|past| + k] == (past + h + [x])[|past| + k] == h[k];
    if k > 0 {
      Shifted(h, x, past, k - 1);
    }
  }

  function Sum<T>(parts: seq<multiset<T>>): multiset<T> {
    if parts == [] then multiset{} else Sum(parts[..|parts| - 1]) + parts[|parts| - 1]
  }

  lemma {:induction false} SumOfSums<T>(a: seq<multiset<T>>, b: seq<multiset<T>>, c: seq<multiset<T>>)
    requires |a| == |b| == |c| && forall i :: 0 <= i < |a| ==> c[i] == a[i] + b[i]
    ensures Sum(c) == Sum(a) + Sum(b)
  {
    if a != [] {
      var n := |a| - 1;
      SumOfSums(a[..n], b[..n], c[..n]);
    }
  }

  lemma {:induction false} SumBump<T>(a: seq<multiset<T>>, i: nat, m: multiset<T>)
    requires i < |a|
    ensures Sum(a[i := a[i] + m]) == Sum(a) + m
  {
    var n := |a| - 1;
    if i == n {
      assert a[i := a[i] + m][..n] == a[..n];
    } else {
      SumBump(a[..n], i, m);
      assert a[i := a[i] + m][..n] == a[..n][i := a[i] + m];
    }
  }

  lemma {:induction false} SumOfNone<T>(a: seq<multiset<T>>)
    requires forall i :: 0 <= i < |a| ==> a[i] == multiset{}
    ensures Sum(a) == multiset{}
  {
    if a != [] {
      SumOfNone(a[..|a| - 1]);
    }
  }

  lemma TakeOneMore<T>(s: seq<T>, m: nat)
    requires m < |s|
    ensures multiset(s[..m + 1]) == multiset(s[..m]) + multiset{s[m]}
  {
    assert s[..m + 1] == s[..m] + [s[m]];
  }

  lemma NoSources<T>(s: seq<Item<T>>, n: nat)
    requires s == []
    ensures Sum(BySource(s, n)) == multiset(s)
  {
    SumOfNone(BySource(s, n));
  }

  lemma NoReaders<T>(s: seq<Item<T>>, n: nat)
    ensures Sum(ByReader(s, [], n)) == multiset(s[..0])
  {
    SumOfNone(ByReader(s, [], n));
  }

  ghost function BySource<T>(s: seq<Item<T>>, n: nat): (r: seq<multiset<Item<T>>>)
    ensures |r| == n
  {
    seq(n, i requires 0 <= i < n =>
      multiset(Tagged(i, false, Part(s, i, false))) + multiset(Tagged(i, true, Part(s, i, true))))
  }

  lemma PartStep<T>(s: seq<Item<T>>, i: nat, b: bool)
    requires s != []
    ensures var x := s[|s| - 1];
      multiset(Tagged(i, b, Part(s, i, b)))
      == multiset(Tagged(i, b, Part(s[..|s| - 1], i, b)))
         + (if i == x.source && b == x.sync then multiset{x} else multiset{})
  {
    var x, was := s[|s| - 1], Part(s[..|s| - 1], i, b);
    if i == x.source && b == x.sync {
      assert Tagged(i, b, was + [x.value]) == Tagged(i, b, was) + [x];
    } else {
      assert was + [] == was;
    }
  }

  lemma SourceStep<T>(s: seq<Item<T>>, n: nat, i: nat)
    requires s != [] && i < n
    ensures BySource(s, n)[i]
         == BySource(s[..|s| - 1], n)[i]
            + (if i == s[|s| - 1].source then multiset{s[|s| - 1]} else multiset{})
  {
    hide Part, Tagged;
    PartStep(s, i, false);
    PartStep(s, i, true);
  }

  lemma SourcesStep<T>(s: seq<Item<T>>, n: nat)
    requires s != [] && s[|s| - 1].source < n
    ensures var i, a := s[|s| - 1].source, BySource(s[..|s| - 1], n);
      |a| == n && BySource(s, n) == a[i := a[i] + multiset{s[|s| - 1]}]
  {
    hide BySource;
    var x, a := s[|s| - 1], BySource(s[..|s| - 1], n);
    forall i: nat | i < n ensures BySource(s, n)[i] == a[x.source := a[x.source] + multiset{x}][i] {
      SourceStep(s, n, i);
    }
  }

  lemma {:induction false} SourcesAddUp<T>(s: seq<Item<T>>, n: nat)
    requires forall k :: 0 <= k < |s| ==> s[k].source < n
    ensures Sum(BySource(s, n)) == multiset(s)
  {
    hide *;
    if s == [] {
      NoSources(s, n);
    } else {
      var m := |s| - 1;
      SourcesAddUp(s[..m], n);
      SourcesStep(s, n);
      SumBump(BySource(s[..m], n), s[m].source, multiset{s[m]});
      TakeOneMore(s, m);
      assert s[..m + 1] == s;
    }
  }

  ghost function ByReader<T>(s: seq<Item<T>>, readers: seq<nat>, n: nat): seq<multiset<Item<T>>>
    requires |readers| <= |s|
  {
    seq(n, j requires 0 <= j < n => multiset(Received(s, readers, j)))
  }

  lemma ReaderStep<T>(s: seq<Item<T>>, readers: seq<nat>, j: nat)
    requires 0 < |readers| <= |s|
    ensures var m := |readers| - 1;
      multiset(Received(s, readers, j))
      == multiset(Received(s, readers[..m], j)) + (if j == readers[m] then multiset{s[m]} else multiset{})
  {
    var was := Received(s, readers[..|readers| - 1], j);
    assert was + [] == was;
  }

  lemma ReadersStep<T>(s: seq<Item<T>>, readers: seq<nat>, n: nat)
    requires 0 < |readers| <= |s| && readers[|readers| - 1] < n
    ensures var m := |readers| - 1;
      var r, a := readers[m], ByReader(s, readers[..m], n);
      |a| == n && ByReader(s, readers, n) == a[r := a[r] + multiset{s[m]}]
  {
    hide Received;
    var m := |readers| - 1;
    var r, a := readers[m], ByReader(s, readers[..m], n);
    forall j: nat | j < n ensures ByReader(s, readers, n)[j] == a[r := a[r] + multiset{s[m]}][j] {
      ReaderStep(s, readers, j);
    }
  }

  lemma {:induction false} ReadersAddUp<T>(s: seq<Item<T>>, readers: seq<nat>, n: nat)
    requires |readers| <= |s| && forall k :: 0 <= k < |readers| ==> readers[k] < n
    ensures Sum(ByReader(s, readers, n)) == multiset(s[..|readers|])
    decreases |readers|
  {
    hide *;
    if readers == [] {
      NoReaders(s, n);
    } else {
      var m := |readers| - 1;
      ReadersAddUp(s, readers[..m], n);
      ReadersStep(s, readers, n);
      SumBump(ByReader(s, readers[..m], n), readers[m], multiset{s[m]});
      TakeOneMore(s, m);
    }
  }

  ghost function Pushed<T>(s: System<T>): seq<multiset<Item<T>>> {
    seq(|s.senders|, i requires 0 <= i < |s.senders| =>
      multiset(Tagged(i, false, s.senders[i].pushed)) + multiset(Tagged(i, true, s.senders[i].synced)))
  }

  ghost function Buffered<T>(s: System<T>): seq<multiset<Item<T>>>
    requires Inv(s)
  {
    seq(|s.senders|, i requires 0 <= i < |s.senders| && Sound(s.senders[i]) =>
      multiset(Tagged(i, false, Held(s.senders[i]))))
  }

  ghost function Dropped<T>(s: System<T>): seq<multiset<Item<T>>> {
    seq(|s.senders|, i requires 0 <= i < |s.senders| => multiset(Tagged(i, false, s.senders[i].dropped)))
  }

  ghost function Delivered<T>(s: System<T>): seq<multiset<Item<T>>> {
    seq(|s.receivers|, j requires 0 <= j < |s.receivers| => multiset(s.receivers[j].called))
  }

  ghost function Batched<T>(s: System<T>): seq<multiset<Item<T>>> {
    seq(|s.receivers|, j requires 0 <= j < |s.receivers| => multiset(Pending(s.receivers[j])))
  }

  ghost function Lost<T>(s: System<T>): seq<multiset<Item<T>>> {
    seq(|s.receivers|, j requires 0 <= j < |s.receivers| => multiset(s.receivers[j].lost))
  }

  function Plus<T>(a: seq<multiset<T>>, b: seq<multiset<T>>): (c: seq<multiset<T>>)
    requires |a| == |b|
    ensures |c| == |a| && forall i :: 0 <= i < |a| ==> c[i] == a[i] + b[i]
  {
    seq(|a|, i requires 0 <= i < |a| => a[i] + b[i])
  }

  lemma TaggedSplit<T>(i: nat, a: seq<T>, b: seq<T>, c: seq<T>)
    ensures multiset(Tagged(i, false, a + b + c))
         == multiset(Tagged(i, false, a)) + multiset(Tagged(i, false, b)) + multiset(Tagged(i, false, c))
  {
    assert Tagged(i, false, a + b + c) == Tagged(i, false, a) + Tagged(i, false, b) + Tagged(i, false, c);
  }

  lemma SentAddsUp<T>(s: System<T>)
    requires Inv(s)
    ensures Sum(Pushed(s)) == multiset(s.entered) + Sum(Buffered(s)) + Sum(Dropped(s))
  {
    hide Part, Held, Sum;
    var n := |s.senders|;
    var a, b, c := BySource(s.entered, n), Buffered(s), Dropped(s);
    forall i: nat | i < n ensures Pushed(s)[i] == Plus(Plus(a, b), c)[i] {
      SenderAt(s, i);
      TaggedSplit(i, Part(s.entered, i, false), Held(s.senders[i]), s.senders[i].dropped);
    }
    SumOfSums(a, b, Plus(a, b));
    SumOfSums(Plus(a, b), c, Pushed(s));
    SourcesAddUp(s.entered, n);
  }

  lemma ReceiverParts<T>(s: System<T>, j: nat)
    requires Inv(s) && j < |s.receivers|
    ensures Shape(s) && multiset(Received(s.entered, s.readers, j))
         == multiset(s.receivers[j].called) + multiset(Pending(s.receivers[j])) + multiset(s.receivers[j].lost)
  {
    ReceiverAt(s, j);
    hide Inv, Pending;
  }

  lemma InvShape<T>(s: System<T>)
    requires Inv(s)
    ensures Shape(s)
  {
  }

  lemma ReceivedAddsUp<T>(s: System<T>)
    requires Inv(s)
    ensures Shape(s)
    ensures Sum(ByReader(s.entered, s.readers, |s.receivers|)) == Sum(Delivered(s)) + Sum(Batched(s)) + Sum(Lost(s))
  {
    hide Inv, Received, Pending, Sum;
    var n := |s.receivers|;
    InvShape(s);
    var a, b, c := Delivered(s), Batched(s), Lost(s);
    forall j: nat | j < n
      ensures ByReader(s.entered, s.readers, n)[j] == Plus(Plus(a, b), c)[j]
    {
      ReceiverParts(s, j);
    }
    SumOfSums(a, b, Plus(a, b));
    SumOfSums(Plus(a, b), c, ByReader(s.entered, s.readers, n));
  }

  lemma ReadAddsUp<T>(s: System<T>)
    requires Inv(s)
    ensures multiset(s.entered) == multiset(s.pipe) + Sum(Delivered(s)) + Sum(Batched(s)) + Sum(Lost(s))
  {
    hide Received, Pending, Sum, SenderInv, ReceiverInv, From;
    ReceivedAddsUp(s);
    ReadersAddUp(s.entered, s.readers, |s.receivers|);
    assert s.entered == s.entered[..|s.readers|] + s.pipe;
  }

  /** Every pushed element is, exactly once, delivered, in the pipe, in a batch, in a buffer, or thrown away by a
      close. */
  lemma {:induction false} Conservation<T>(senders: nat, receivers: nat, events: seq<Event<T>>, t: System<T>)
    requires Run(Start(senders, receivers), events, t)
    ensures Inv(t)
    ensures Sum(Pushed(t)) == Sum(Delivered(t)) + multiset(t.pipe) + Sum(Batched(t)) + Sum(Buffered(t))
                              + Sum(Dropped(t)) + Sum(Lost(t))
  {
    hide Run, Start;
    StartHolds<T>(senders, receivers);
    RunKeeps(Start(senders, receivers), events, t);
    SentAddsUp(t);
    ReadAddsUp(t);
  }
}
