/**
 * The log queue of a flow (flow.c): each group of nodes that has a thread of its own logs through a producer, runs
 * its loop, stops its nodes, and then signs off with one NULL that is written synchronously.
 */
module FlowLog {
  import opened FlowLoop
  import opened FlowQueue
  import opened OperationPlaces
  import P = QueueProducer
  import opened QueueEnds
  import opened QueueLaws
  import opened QueueSystem

  /** flow_group_main: its loop runs, or it has ended and the nodes are being stopped, or the NULL is written. */
  datatype Phase = Looping | Stopping | SignedOff

  /**
   * `late` is what was logged since the loop ended. A request started then is not submitted any more, unless the
   * submission ring became full, which is recorded in `filled`.
   */
  datatype Group<V> = Group(phase: Phase, loop: Loop, filled: bool, late: seq<Message<V>>)

  datatype Log<V> = Log(node: Node<V>, groups: seq<Group<V>>)

  /** `user` is the id that the loop's pool gives to the next operation. */
  datatype Action<V> =
    | Logged(i: nat, x: V, user: nat)
    | Handled(i: nat, user: nat)
    | Turned(i: nat, turn: Turn)
    | Taken(i: nat, n: nat)
    | Interrupted(i: nat)
    | LoopEnded(i: nat)
    | Signed(i: nat)
    | Reader(e: Event<Message<V>>)
    | Consume

  function NewGroup<V>(): Group<V> {
    Group(Looping, NewLoop(), false, [])
  }

  /** A flow with n > 0 groups that have a thread. */
  function BeginLog<V>(n: nat): Log<V> {
    Log(Begin(n), seq(n, _ => NewGroup()))
  }

  /** What can still happen to a loop that has ended: operations are started, and a full ring is submitted. */
  predicate Outside(t: Turn) {
    t.Next? || t.Start? || t.Take? || t.Post?
  }

  ghost predicate Reads<T>(e: Event<T>) {
    e.Pop? || e.Fill? || e.CutRead? || e.HandleRead? || e.Finish?
  }

  /** What an action does to the queue, if it does something. */
  function EventOf<V>(a: Action<V>): Event<Message<V>>
    requires a.Logged? || a.Handled? || a.Taken? || a.Interrupted? || a.Signed? || a.Reader?
  {
    match a
    case Logged(i, x, _) => Push(i, Text(x))
    case Handled(i, _) => HandleWrite(i)
    case Taken(i, n) => Accept(i, n)
    case Interrupted(i) => CutWrite(i)
    case Signed(i) => PushSync(i, SignOff)
    case Reader(e) => e
  }

  ghost predicate CanAct<V>(d: Log<V>, a: Action<V>)
    requires Inv(d.node.queue) && |d.groups| == |d.node.queue.senders|
  {
    var q := d.node.queue;
    match a
    case Logged(i, _, user) =>
      Enabled(q, EventOf(a)) && i < |d.groups| && !d.groups[i].phase.SignedOff? && user !in d.groups[i].loop.live
    case Handled(i, user) =>
      && Enabled(q, EventOf(a)) && i < |d.groups| && d.groups[i].phase.Looping?
      && CanAnswer(d.groups[i].loop) && user !in d.groups[i].loop.live
    case Turned(i, t) =>
      && i < |d.groups| && !d.groups[i].phase.SignedOff? && CanTurn(d.groups[i].loop, q.senders[i].op, t)
      && (d.groups[i].phase.Stopping? ==> Outside(t))
    case Taken(i, _) =>
      Enabled(q, EventOf(a)) && i < |d.groups| && CanReport(d.groups[i])
    case Interrupted(i) =>
      Enabled(q, EventOf(a)) && i < |d.groups| && CanReport(d.groups[i])
    case LoopEnded(i) => i < |d.groups| && d.groups[i].phase.Looping? && d.groups[i].loop.live == {}
    case Signed(i) => Enabled(q, EventOf(a)) && i < |d.groups| && d.groups[i].phase.Stopping?
    case Reader(e) => Reads(e) && Enabled(q, e)
    case Consume => Enabled(q, Deliver(0))
  }

  predicate CanReport<V>(g: Group<V>) {
    !g.phase.SignedOff? && g.loop.write in g.loop.places.kernel
  }

  /** The group after a push that may have started a write. */
  function GroupLogged<V>(g: Group<V>, before: WriteOp, after: WriteOp, m: Message<V>, user: nat): Group<V> {
    var g' := if before.NoWrite? && after.Writing? then g.(loop := Started(g.loop, user)) else g;
    if g.phase.Looping? then g' else g'.(late := g.late + [m])
  }

  /** The group after the write's handler, which may have started the next write. */
  function GroupHandled<V>(g: Group<V>, after: WriteOp, user: nat): Group<V>
    requires CanAnswer(g.loop)
  {
    g.(loop := Answered(g.loop, after.Writing?, user))
  }

  function GroupTurned<V>(g: Group<V>, op: WriteOp, t: Turn): Group<V>
    requires CanTurn(g.loop, op, t)
  {
    g.(loop := AfterTurn(g.loop, op, t), filled := g.filled || (g.phase.Stopping? && t.Take?))
  }

  function GroupReported<V>(g: Group<V>, res: int): Group<V> {
    g.(loop := Reported(g.loop, res))
  }

  function WithGroup<V>(d: Log<V>, i: nat, g: Group<V>): Log<V>
    requires i < |d.groups|
  {
    d.(groups := d.groups[i := g])
  }

  ghost function Act<V>(d: Log<V>, a: Action<V>): (d': Log<V>)
    requires Inv(d.node.queue) && |d.groups| == |d.node.queue.senders| && CanAct(d, a)
    ensures |d'.groups| == |d.groups|
  {
    match a
    case Logged(i, x, user) =>
      var before, after := OpOf(d.node.queue, i), OpOf(Queued(d, a).node.queue, i);
      WithGroup(Queued(d, a), i, GroupLogged(d.groups[i], before, after, Text(x), user))
    case Handled(i, user) =>
      WithGroup(Queued(d, a), i, GroupHandled(d.groups[i], OpOf(Queued(d, a).node.queue, i), user))
    case Turned(i, t) => WithGroup(d, i, GroupTurned(d.groups[i], OpOf(d.node.queue, i), t))
    case Taken(i, n) => WithGroup(Queued(d, a), i, GroupReported(d.groups[i], n))
    case Interrupted(i) => WithGroup(Queued(d, a), i, GroupReported(d.groups[i], P.INTERRUPTED))
    case LoopEnded(i) => WithGroup(d, i, d.groups[i].(phase := Stopping))
    case Signed(i) => WithGroup(Queued(d, a), i, d.groups[i].(phase := SignedOff))
    case Consume => d.(node := Consumed(d.node))
    case Reader(_) => Queued(d, a)
  }

  function OpOf<T>(s: System<T>, i: nat): WriteOp {
    if i < |s.senders| then s.senders[i].op else NoWrite
  }

  ghost function Queued<V>(d: Log<V>, a: Action<V>): Log<V>
    requires a.Logged? || a.Handled? || a.Taken? || a.Interrupted? || a.Signed? || a.Reader?
    requires Inv(d.node.queue) && Enabled(d.node.queue, EventOf(a))
  {
    d.(node := d.node.(queue := Step(d.node.queue, EventOf(a))))
  }

  ghost predicate Acts<V>(d: Log<V>, actions: seq<Action<V>>, d': Log<V>)
    decreases actions
  {
    if actions == [] then d' == d
    else
      && Inv(d.node.queue) && |d.groups| == |d.node.queue.senders| && CanAct(d, actions[0])
      && Acts(Act(d, actions[0]), actions[1..], d')
  }

  /** `all` is what the pipe has got from a group, `past` the part of it that came through the buffers. */
  ghost predicate GroupInv<V>(g: Group<V>, l: Sender<Message<V>>, all: seq<Message<V>>, past: seq<Message<V>>) {
    && past <= l.pushed
    && (forall k :: 0 <= k < |l.pushed| ==> l.pushed[k].Text?)
    && (if g.phase.SignedOff? then l.synced == [SignOff] && all == past + [SignOff] else l.synced == [] && all == past)
    && (!g.phase.SignedOff? ==> Tied(g.loop, l.op))
    && (g.phase.Looping? ==> g.late == [] && !g.filled)
    && (g.phase.Stopping? && !g.filled ==> g.loop.places.kernel == {})
    && (!g.phase.Looping? ==>
          && |l.pushed| - |past| <= |g.late| <= |l.pushed|
          && (!g.filled ==> |l.pushed| - |past| == |g.late|)
          && g.late == l.pushed[|l.pushed| - |g.late|..])
  }

  ghost predicate GroupIn<V>(g: Group<V>, s: System<Message<V>>, i: nat) {
    i < |s.senders| && GroupInv(g, s.senders[i], From(s.entered, i), Part(s.entered, i, false))
  }

  ghost predicate LogInv<V>(d: Log<V>, n: nat) {
    && NodeInv(d.node, n) && Inv(d.node.queue) && |d.groups| == |d.node.queue.senders| == n
    && forall i: nat :: i < n ==> GroupIn(d.groups[i], d.node.queue, i)
  }

  lemma BeginLogHolds<V>(n: nat)
    requires n > 0
    ensures LogInv(BeginLog<V>(n), n)
  {
    hide *;
    BeginHolds<V>(n);
    LogStarts<V>(n);
    var d := BeginLog<V>(n);
    forall i: nat | i < n ensures GroupIn(d.groups[i], d.node.queue, i) {
      NewGroupIn(d.node.queue, i);
    }
    Assembled(d, n);
  }

  lemma LogStarts<V>(n: nat)
    ensures var d := BeginLog<V>(n);
      d.node == Begin<V>(n) && |d.groups| == n && forall i: nat :: i < n ==> d.groups[i] == NewGroup<V>()
  {
    hide Begin;
  }

  lemma NewGroupIn<V>(s: System<Message<V>>, i: nat)
    requires i < |s.senders| && s.senders[i] == NewSender() && s.entered == []
    ensures GroupIn(NewGroup<V>(), s, i)
  {
  }

  lemma Assembled<V>(d: Log<V>, n: nat)
    requires NodeInv(d.node, n) && |d.groups| == n
    requires forall i: nat :: i < n ==> GroupIn(d.groups[i], d.node.queue, i)
    ensures LogInv(d, n)
  {
    hide GroupIn;
  }

  /** A group signs off last, so its part of the pipe has at most one NULL, at the end. */
  lemma GroupEndsOnce<V>(g: Group<V>, l: Sender<Message<V>>, all: seq<Message<V>>, past: seq<Message<V>>)
    requires GroupInv(g, l, all, past)
    ensures EndsOnce(all)
  {
    assert forall k :: 0 <= k < |past| ==> past[k] == l.pushed[k];
  }

  /** A pending write is a live user, so when the loop ends nothing waits in the buffers and no place is taken. */
  lemma LoopDrains<V>(loop: Loop, l: Sender<Message<V>>, past: seq<Message<V>>, direct: seq<Message<V>>)
    requires Tied(loop, l.op) && loop.live == {} && SenderInv(l, past, direct) && l.box.open
    ensures past == l.pushed && Idle(loop.places)
  {
    if !l.op.NoWrite? {
      WriteIsLive(loop, l.op);
    }
    NobodyLeft(loop.live, loop.places);
    SentIsPrefix(l, past, direct);
  }

  lemma PastPrefix<V>(s: System<Message<V>>, i: nat)
    requires Inv(s) && i < |s.senders|
    ensures Part(s.entered, i, false) <= s.senders[i].pushed
  {
    SenderAt(s, i);
    SentIsPrefix(s.senders[i], Part(s.entered, i, false), Part(s.entered, i, true));
  }

  /** A message logged goes behind all others, and counts as late once the loop has ended. */
  lemma LoggedKeeps<V>(g: Group<V>, l: Sender<Message<V>>, all: seq<Message<V>>, past: seq<Message<V>>, x: V, user: nat)
    requires GroupInv(g, l, all, past) && Sound(l) && l.box.open && !g.phase.SignedOff? && user !in g.loop.live
    ensures GroupInv(GroupLogged(g, l.op, AfterPush(l, Text(x)).op, Text(x), user), AfterPush(l, Text(x)), all, past)
  {
    hide Tied, Sound;
    var m := AfterPush(l, Text(x));
    assert m.pushed == l.pushed + [Text(x)] && m.synced == l.synced;
    if l.op.NoWrite? && m.op.Writing? {
      StartKeeps(g.loop, user);
    }
    if !g.phase.Looping? {
      var late := g.late + [Text(x)];
      assert m.pushed[|m.pushed| - |late|..] == l.pushed[|l.pushed| - |g.late|..] + [Text(x)];
    }
  }

  lemma HandledKeeps<V>(g: Group<V>, l: Sender<Message<V>>, all: seq<Message<V>>, past: seq<Message<V>>, user: nat)
    requires GroupInv(g, l, all, past) && Sound(l) && l.op.Wrote? && l.box.open && g.phase.Looping?
    requires CanAnswer(g.loop) && user !in g.loop.live
    ensures GroupInv(GroupHandled(g, AfterWrite(l).op, user), AfterWrite(l), all, past)
  {
    hide Tied, Sound;
    AnswerKeeps(g.loop, l.op, AfterWrite(l).op.Writing?, user);
  }

  /** What the kernel takes no longer waits. Only a submitted ring brings it anything after the loop's end. */
  lemma TakenKeeps<V>(g: Group<V>, l: Sender<Message<V>>, all: seq<Message<V>>, past: seq<Message<V>>,
                      more: seq<Message<V>>, res: int)
    requires GroupInv(g, l, all, past) && CanReport(g) && l.op.Writing? && past + more <= l.pushed
    ensures GroupInv(GroupReported(g, res), l.(op := Wrote(res)), all + more, past + more)
  {
    hide Tied;
    ReportKeeps(g.loop, res);
  }

  lemma TurnedKeeps<V>(g: Group<V>, l: Sender<Message<V>>, all: seq<Message<V>>, past: seq<Message<V>>, t: Turn)
    requires GroupInv(g, l, all, past) && !g.phase.SignedOff? && CanTurn(g.loop, l.op, t)
    requires g.phase.Stopping? ==> Outside(t)
    ensures GroupInv(GroupTurned(g, l.op, t), l, all, past)
  {
    hide Tied;
    TurnKeeps(g.loop, l.op, t);
  }

  lemma SignedKeeps<V>(g: Group<V>, l: Sender<Message<V>>, all: seq<Message<V>>, past: seq<Message<V>>)
    requires GroupInv(g, l, all, past) && g.phase.Stopping?
    ensures GroupInv(g.(phase := SignedOff), l.(synced := l.synced + [SignOff]), all + [SignOff], past)
  {
    hide Tied;
    assert l.synced + [SignOff] == [SignOff];
  }

  /** A group that an action does not concern stays as it is. */
  lemma OthersKeep<V>(s: seq<Item<Message<V>>>, k: nat, sync: bool, xs: seq<Message<V>>, i: nat)
    requires i != k || xs == []
    ensures From(s + Tagged(k, sync, xs), i) == From(s, i)
    ensures Part(s + Tagged(k, sync, xs), i, false) == Part(s, i, false)
  {
    hide *;
    FromAppend(s, k, sync, xs, i);
    PartAppend(s, k, sync, xs, i, false);
    assert From(s, i) + [] == From(s, i);
    assert Part(s, i, false) + [] == Part(s, i, false);
  }

  lemma LoggedIn<V>(s: System<Message<V>>, k: nat, x: V, user: nat, g: Group<V>, i: nat)
    requires Inv(s) && Enabled(s, Push(k, Text(x))) && GroupIn(g, s, i)
    requires i == k ==> !g.phase.SignedOff? && user !in g.loop.live
    ensures var t := Step(s, Push(k, Text(x)));
      GroupIn(if i != k then g else GroupLogged(g, OpOf(s, k), OpOf(t, k), Text(x), user), t, i)
  {
    hide Inv, From, Part, Sound, AfterPush, GroupInv, Enabled, Step, GroupLogged;
    SendersAfterPush(s, k, Text(x));
    if i == k {
      LoggedKeeps(g, s.senders[i], From(s.entered, i), Part(s.entered, i, false), x, user);
    }
  }

  lemma HandledIn<V>(s: System<Message<V>>, k: nat, user: nat, g: Group<V>, i: nat)
    requires Inv(s) && Enabled(s, HandleWrite(k)) && GroupIn(g, s, i) && s.senders[k].box.open
    requires i == k ==> g.phase.Looping? && CanAnswer(g.loop) && user !in g.loop.live
    ensures var t := Step(s, HandleWrite(k));
      GroupIn(if i != k then g else GroupHandled(g, OpOf(t, k), user), t, i)
  {
    hide Inv, From, Part, Sound, AfterWrite, GroupInv, Step, GroupHandled;
    SendersAfterWrite(s, k);
    if i == k {
      HandledKeeps(g, s.senders[i], From(s.entered, i), Part(s.entered, i, false), user);
    }
  }

  lemma TakenIn<V>(s: System<Message<V>>, k: nat, m: nat, g: Group<V>, i: nat)
    requires Inv(s) && Enabled(s, Accept(k, m)) && GroupIn(g, s, i)
    requires i == k ==> CanReport(g)
    ensures GroupIn(if i == k then GroupReported(g, m) else g, Step(s, Accept(k, m)), i)
  {
    var e: Event<Message<V>> := Accept(k, m);
    var more := Lent(s.senders[k])[..m];
    assert s.senders[k].op.Writing?;
    hide Inv, From, Part, Sound, GroupInv, Enabled, Step, Lent, Tagged, CanReport, GroupReported;
    StepKeeps(s, e);
    SendersAfterRecord(s, e, k);
    if i == k {
      PastPrefix(Step(s, e), k);
      FromAppend(s.entered, k, false, more, k);
      PartAppend(s.entered, k, false, more, k, false);
      assert s.senders[k].synced + [] == s.senders[k].synced;
      TakenKeeps(g, s.senders[i], From(s.entered, i), Part(s.entered, i, false), more, m);
    } else {
      OthersKeep(s.entered, k, false, more, i);
    }
  }

  lemma InterruptedIn<V>(s: System<Message<V>>, k: nat, g: Group<V>, i: nat)
    requires Inv(s) && Enabled(s, CutWrite(k)) && GroupIn(g, s, i)
    requires i == k ==> CanReport(g)
    ensures GroupIn(if i == k then GroupReported(g, P.INTERRUPTED) else g, Step(s, CutWrite(k)), i)
  {
    var e: Event<Message<V>> := CutWrite(k);
    assert s.senders[k].op.Writing?;
    hide Inv, From, Part, Sound, GroupInv, Enabled, Step, Lent, Tagged, CanReport, GroupReported;
    SendersAfterRecord(s, e, k);
    OthersKeep(s.entered, k, false, [], i);
    if i == k {
      var all, past := From(s.entered, i), Part(s.entered, i, false);
      assert s.senders[k].synced + [] == s.senders[k].synced && all + [] == all && past + [] == past;
      PastPrefix(s, k);
      TakenKeeps(g, s.senders[i], all, past, [], P.INTERRUPTED);
    }
  }

  lemma SignedIn<V>(s: System<Message<V>>, k: nat, g: Group<V>, i: nat)
    requires Inv(s) && Enabled(s, PushSync(k, SignOff)) && GroupIn(g, s, i)
    requires i == k ==> g.phase.Stopping?
    ensures GroupIn(if i == k then g.(phase := SignedOff) else g, Step(s, PushSync(k, SignOff)), i)
  {
    var e: Event<Message<V>> := PushSync(k, SignOff);
    hide Inv, From, Part, Sound, GroupInv, Enabled, Step, Lent, Tagged;
    SendersAfterRecord(s, e, k);
    if i == k {
      FromAppend(s.entered, k, true, [SignOff], k);
      PartAppend(s.entered, k, true, [SignOff], k, false);
      assert Part(s.entered, k, false) + [] == Part(s.entered, k, false);
      SignedKeeps(g, s.senders[i], From(s.entered, i), Part(s.entered, i, false));
    } else {
      OthersKeep(s.entered, k, true, [SignOff], i);
    }
  }

  lemma LoopEndedKeeps<V>(g: Group<V>, l: Sender<Message<V>>, all: seq<Message<V>>, past: seq<Message<V>>,
                          direct: seq<Message<V>>)
    requires GroupInv(g, l, all, past) && SenderInv(l, past, direct) && l.box.open
    requires g.phase.Looping? && g.loop.live == {}
    ensures GroupInv(g.(phase := Stopping), l, all, past)
  {
    hide Tied, SenderInv;
    LoopDrains(g.loop, l, past, direct);
    assert l.pushed[|l.pushed|..] == [];
  }

  lemma LoopEndedIn<V>(s: System<Message<V>>, g: Group<V>, i: nat)
    requires Inv(s) && GroupIn(g, s, i) && g.phase.Looping? && g.loop.live == {} && s.senders[i].box.open
    ensures GroupIn(g.(phase := Stopping), s, i)
  {
    hide Inv, From, Part, SenderInv, GroupInv;
    SenderAt(s, i);
    LoopEndedKeeps(g, s.senders[i], From(s.entered, i), Part(s.entered, i, false), Part(s.entered, i, true));
  }

  lemma TurnedIn<V>(s: System<Message<V>>, t: Turn, g: Group<V>, i: nat)
    requires GroupIn(g, s, i) && !g.phase.SignedOff? && CanTurn(g.loop, OpOf(s, i), t)
    requires g.phase.Stopping? ==> Outside(t)
    ensures GroupIn(GroupTurned(g, OpOf(s, i), t), s, i)
  {
    hide From, Part, GroupInv, GroupTurned;
    TurnedKeeps(g, s.senders[i], From(s.entered, i), Part(s.entered, i, false), t);
  }

  lemma ReaderIn<V>(s: System<Message<V>>, e: Event<Message<V>>, g: Group<V>, i: nat)
    requires Inv(s) && Enabled(s, e) && Reads(e) && GroupIn(g, s, i)
    ensures GroupIn(g, Step(s, e), i)
  {
    hide Inv, From, Part, GroupInv, Enabled, Step;
    SendersAfterRead(s, e);
  }

  lemma TiedAt<V>(d: Log<V>, i: nat, n: nat)
    requires LogInv(d, n) && i < n && !d.groups[i].phase.SignedOff?
    ensures i < |d.node.queue.senders| && Tied(d.groups[i].loop, OpOf(d.node.queue, i))
  {
    hide Tied, Inv, NodeInv, From, Part;
    assert GroupIn(d.groups[i], d.node.queue, i);
  }

  lemma WroteIsEnabled<T>(s: System<T>, i: nat)
    requires i < |s.senders| && OpOf(s, i).Wrote?
    ensures Enabled(s, HandleWrite(i))
  {
  }

  /** When a loop comes to its write's completion, the kernel is done with the write, and its result is there. */
  lemma HandlerReady<V>(d: Log<V>, i: nat, n: nat)
    requires LogInv(d, n) && i < n && !d.groups[i].phase.SignedOff?
    requires !OpOf(d.node.queue, i).NoWrite? && CanAnswer(d.groups[i].loop)
    ensures Enabled(d.node.queue, HandleWrite(i)) && d.groups[i].loop.places.cq != []
    ensures OpOf(d.node.queue, i) == Wrote(d.groups[i].loop.places.cq[0].res)
  {
    assert |d.groups| == n;
    hide LogInv, Inv, Enabled, Tied, Answered, OpOf;
    TiedAt(d, i, n);
    AnswerKeeps(d.groups[i].loop, OpOf(d.node.queue, i), false, 0);
    WroteIsEnabled(d.node.queue, i);
  }

  /** Any action keeps what is known of each group. */
  lemma GroupKeeps<V>(d: Log<V>, a: Action<V>, n: nat, i: nat)
    requires LogInv(d, n) && CanAct(d, a) && i < n
    ensures GroupIn(Act(d, a).groups[i], Act(d, a).node.queue, i)
  {
    hide GroupIn, Inv, Step, Enabled, GroupLogged, GroupHandled, GroupTurned, GroupReported, CanTurn, CanAnswer,
      CanReport;
    var s, g := d.node.queue, d.groups[i];
    match a {
      case Logged(k, x, user) => LoggedIn(s, k, x, user, g, i);
      case Handled(k, user) => HandledIn(s, k, user, g, i);
      case Turned(k, t) => if i == k { TurnedIn(s, t, g, i); }
      case Taken(k, m) => TakenIn(s, k, m, g, i);
      case Interrupted(k) => InterruptedIn(s, k, g, i);
      case LoopEnded(k) => if i == k { LoopEndedIn(s, g, i); }
      case Signed(k) => SignedIn(s, k, g, i);
      case Reader(e) => ReaderIn(s, e, g, i);
      case Consume =>
        hide NodeInv;
        ConsumeKeeps(d.node, n);
        SameSenders(g, s, Consumed(d.node).queue, i);
    }
  }

  lemma SameSenders<V>(g: Group<V>, s: System<Message<V>>, t: System<Message<V>>, i: nat)
    requires GroupIn(g, s, i) && t.senders == s.senders && t.entered == s.entered
    ensures GroupIn(g, t, i)
  {
  }

  lemma ActKeeps<V>(d: Log<V>, a: Action<V>, n: nat)
    requires LogInv(d, n) && CanAct(d, a)
    ensures LogInv(Act(d, a), n) && Act(d, a).node.sources >= 0
  {
    hide GroupIn, Inv, CanAct, Act, NodeInv;
    forall i: nat | i < n ensures GroupIn(Act(d, a).groups[i], Act(d, a).node.queue, i) {
      GroupKeeps(d, a, n, i);
    }
    NodeKeeps(d, a, n);
    Assembled(Act(d, a), n);
    SourcesLeft(Act(d, a).node, n);
  }

  lemma InEndsOnce<V>(g: Group<V>, s: System<Message<V>>, i: nat)
    requires GroupIn(g, s, i)
    ensures EndsOnce(From(s.entered, i))
  {
    hide From, Part;
    GroupEndsOnce(g, s.senders[i], From(s.entered, i), Part(s.entered, i, false));
  }

  lemma NodeKeeps<V>(d: Log<V>, a: Action<V>, n: nat)
    requires LogInv(d, n) && CanAct(d, a)
    requires forall i: nat :: i < n ==> GroupIn(Act(d, a).groups[i], Act(d, a).node.queue, i)
    ensures NodeInv(Act(d, a).node, n)
  {
    hide GroupIn, From, Inv, Step, Enabled, EndsOnce, NodeInv;
    if a.Consume? {
      ConsumeKeeps(d.node, n);
    } else if !a.Turned? && !a.LoopEnded? {
      var s := Step(d.node.queue, EventOf(a));
      forall i: nat | i < n ensures EndsOnce(From(s.entered, i)) {
        InEndsOnce(Act(d, a).groups[i], s, i);
      }
      QuietKeeps(d.node, EventOf(a), n);
    }
  }

  lemma {:induction false} ActsKeep<V>(d: Log<V>, actions: seq<Action<V>>, d': Log<V>, n: nat)
    requires LogInv(d, n) && Acts(d, actions, d')
    ensures LogInv(d', n)
    decreases actions
  {
    hide LogInv, Act, CanAct, Inv;
    if actions != [] {
      ActKeeps(d, actions[0], n);
      ActsKeep(Act(d, actions[0]), actions[1..], d', n);
    }
  }

  /**
   * What the log consumer was given of a group, when it is closed: a part from the front of what was logged, all
   * that was logged before the loop ended included, then the NULL. It is everything if nothing was logged later,
   * and, unless a full ring was submitted meanwhile, only then.
   */
  ghost predicate Served<V>(g: Group<V>, logged: seq<Message<V>>, given: seq<Message<V>>) {
    && g.phase.SignedOff? && given != []
    && |g.late| <= |logged| && g.late == logged[|logged| - |g.late|..]
    && |logged| - |g.late| <= |given| - 1 <= |logged|
    && given == logged[..|given| - 1] + [SignOff]
    && (g.late == [] ==> given == logged + [SignOff])
    && (!g.filled ==> (given == logged + [SignOff] <==> g.late == []))
  }

  lemma GroupServed<V>(g: Group<V>, l: Sender<Message<V>>, all: seq<Message<V>>, past: seq<Message<V>>)
    requires GroupInv(g, l, all, past) && SignOff in all
    ensures Served(g, l.pushed, all)
  {
    var k :| 0 <= k < |all| && all[k] == SignOff;
    assert forall m :: 0 <= m < |past| ==> past[m] == l.pushed[m];
    assert g.phase.SignedOff?;
    assert l.pushed[..|past|] == past;
    if |past| == |l.pushed| {
      assert past == l.pushed;
    }
  }

  /**
   * In every run, once the log consumer is closed, every group is served as said, and nothing is left in the
   * pipe or in the last batch.
   */
  lemma {:induction false} LogServed<V>(n: nat, actions: seq<Action<V>>, d: Log<V>)
    requires n > 0 && Acts(BeginLog(n), actions, d)
    ensures |d.groups| == |d.node.queue.senders| == n && |d.node.queue.receivers| == 1
    ensures d.node.queue.receivers[0].box.open <==> d.node.sources != 0
    ensures !d.node.queue.receivers[0].box.open ==>
              && (forall i: nat :: i < n ==>
                    Served(d.groups[i], d.node.queue.senders[i].pushed, From(d.node.queue.receivers[0].called, i)))
              && d.node.queue.pipe == [] && Pending(d.node.queue.receivers[0]) == []
              && d.node.queue.receivers[0].lost == []
  {
    hide Acts, BeginLog, GroupInv, Served;
    BeginLogHolds<V>(n);
    ActsKeep(BeginLog(n), actions, d, n);
    if !d.node.queue.receivers[0].box.open {
      ClosedAfterAll(d.node, n);
      var q := d.node.queue;
      forall i: nat | i < n ensures Served(d.groups[i], q.senders[i].pushed, From(q.receivers[0].called, i)) {
        assert GroupIn(d.groups[i], q, i);
        GroupServed(d.groups[i], q.senders[i], From(q.entered, i), Part(q.entered, i, false));
      }
    }
  }

  // ---- a run that loses a message

  /** A run goes on with one more action. */
  lemma {:induction false} Next<V>(d: Log<V>, actions: seq<Action<V>>, d1: Log<V>, a: Action<V>)
    requires Acts(d, actions, d1)
    requires Inv(d1.node.queue) && |d1.groups| == |d1.node.queue.senders| && CanAct(d1, a)
    ensures Acts(d, actions + [a], Act(d1, a))
    decreases actions
  {
    hide Act, CanAct, Inv;
    if actions == [] {
      assert (actions + [a])[1..] == [];
    } else {
      Next(Act(d, actions[0]), actions[1..], d1, a);
      assert (actions + [a])[1..] == actions[1..] + [a];
    }
  }

  lemma LogFormed<V>(d: Log<V>, n: nat)
    requires LogInv(d, n)
    ensures Inv(d.node.queue) && |d.groups| == |d.node.queue.senders| == n && |d.node.queue.receivers| == 1
  {
  }

  lemma ActsNone<V>(d: Log<V>)
    ensures Acts(d, [], d)
  {
  }

  lemma OneGroup<V>()
    ensures var d := BeginLog<V>(1);
      && d.groups == [NewGroup<V>()] && d.node.sources == 1
      && d.node.queue == System([NewSender()], [AfterPop(NewReceiver<Item<Message<V>>>())], [], [], [])
  {
  }

  /** A flow with one group, seen from outside its buffers. */
  ghost predicate Shows<V>(d: Log<V>, phase: Phase, logged: seq<Message<V>>, entered: seq<Item<Message<V>>>,
                           readers: seq<nat>, r: Receiver<Item<Message<V>>>) {
    var s := d.node.queue;
    && LogInv(d, 1) && |d.groups| == |s.senders| == 1 && d.node.sources == 1 && Inv(s)
    && d.groups[0].phase == phase && (logged == [] ==> d.groups[0].loop.live == {})
    && s.senders[0].pushed == logged && s.senders[0].box.open
    && s.entered == entered && s.readers == readers && s.receivers == [r]
  }

  lemma ShowsStart<V>()
    ensures Shows(BeginLog<V>(1), Looping, [], [], [], AfterPop(NewReceiver()))
  {
    hide LogInv, Inv, BeginLog, Begin;
    BeginLogHolds<V>(1);
    OneGroup<V>();
    LogFormed(BeginLog<V>(1), 1);
  }

  lemma ShowsLoopEnded<V>(d: Log<V>, r: Receiver<Item<Message<V>>>)
    requires Shows(d, Looping, [], [], [], r)
    ensures CanAct(d, LoopEnded(0)) && Shows(Act(d, LoopEnded(0)), Stopping, [], [], [], r)
  {
    hide LogInv, Inv;
    ActKeeps(d, LoopEnded(0), 1);
  }

  lemma ShowsLogged<V>(d: Log<V>, x: V, user: nat, r: Receiver<Item<Message<V>>>)
    requires Shows(d, Stopping, [], [], [], r)
    ensures CanAct(d, Logged(0, x, user)) && Shows(Act(d, Logged(0, x, user)), Stopping, [Text(x)], [], [], r)
  {
    hide LogInv, Inv, Sound;
    var a: Action<V> := Logged(0, x, user);
    ActKeeps(d, a, 1);
    LogFormed(Act(d, a), 1);
    SendersAfterPush(d.node.queue, 0, Text(x));
    StillOpen(d.node.queue, EventOf(a));
  }

  lemma StillOpen<T>(s: System<T>, e: Event<T>)
    requires Inv(s) && Enabled(s, e) && (e.Push? || e.PushSync?) && |s.senders| == 1 && s.senders[0].box.open
    ensures |Step(s, e).senders| == 1 && Step(s, e).senders[0].box.open
    ensures Step(s, e).receivers == s.receivers && Step(s, e).readers == s.readers
  {
    hide Inv, Sound;
  }

  lemma ShowsSigned<V>(d: Log<V>, logged: seq<Message<V>>, r: Receiver<Item<Message<V>>>)
    requires Shows(d, Stopping, logged, [], [], r)
    ensures CanAct(d, Signed(0))
    ensures Shows(Act(d, Signed(0)), SignedOff, logged, [Item(0, true, SignOff)], [], r)
  {
    hide LogInv, Inv, Sound;
    var a: Action<V> := Signed(0);
    ActKeeps(d, a, 1);
    LogFormed(Act(d, a), 1);
    SendersAfterRecord(d.node.queue, PushSync(0, SignOff), 0);
    StillOpen(d.node.queue, EventOf(a));
  }

  lemma ShowsFilled<V>(d: Log<V>, logged: seq<Message<V>>, item: Item<Message<V>>, r: Receiver<Item<Message<V>>>)
    requires Shows(d, SignedOff, logged, [item], [], r) && r.op.Reading?
    ensures CanAct(d, Reader(Fill(0, 1)))
    ensures Shows(Act(d, Reader(Fill(0, 1))), SignedOff, logged, [item], [0], r.(op := Got([item])))
  {
    var s := d.node.queue;
    assert s.pipe == [item];
    hide LogInv, Inv;
    var a: Action<V> := Reader(Fill(0, 1));
    ActKeeps(d, a, 1);
    LogFormed(Act(d, a), 1);
    assert s.pipe[..1] == [item] && [] + seq(1, _ => 0) == [0];
  }

  lemma ShowsHandled<V>(d: Log<V>, logged: seq<Message<V>>, item: Item<Message<V>>, r: Receiver<Item<Message<V>>>)
    requires Shows(d, SignedOff, logged, [item], [0], r) && r.op == Got([item]) && r.box.open
    ensures CanAct(d, Reader(HandleRead(0)))
    ensures Shows(Act(d, Reader(HandleRead(0))), SignedOff, logged, [item], [0], AfterRead(r))
  {
    hide LogInv, Inv;
    var a: Action<V> := Reader(HandleRead(0));
    ActKeeps(d, a, 1);
    LogFormed(Act(d, a), 1);
  }

  lemma ShowsConsumed<V>(d: Log<V>, logged: seq<Message<V>>, item: Item<Message<V>>, r: Receiver<Item<Message<V>>>)
    requires Shows(d, SignedOff, logged, [item], [0], r) && r.box.rest == [item] && r.called == [] && r.box.open
    requires item.value.SignOff?
    ensures CanAct(d, Consume)
    ensures var q := Act(d, Consume).node.queue;
      && |q.receivers| == |q.senders| == 1 && q.senders[0].pushed == logged
      && !q.receivers[0].box.open && q.receivers[0].called == [item]
  {
    hide LogInv, Inv;
    var s := d.node.queue;
    StepKeeps(s, Deliver(0));
  }

  /** The loop ends, a message is logged, the NULL is written and read: the consumer is closed, the message lost. */
  lemma LateMessageLost<V>(x: V) returns (actions: seq<Action<V>>, d: Log<V>)
    ensures Acts(BeginLog(1), actions, d) && |d.node.queue.receivers| == |d.node.queue.senders| == 1
    ensures !d.node.queue.receivers[0].box.open
    ensures d.node.queue.senders[0].pushed == [Text(x)] && From(d.node.queue.receivers[0].called, 0) == [SignOff]
  {
    var item: Item<Message<V>> := Item(0, true, SignOff);
    var r: Receiver<Item<Message<V>>> := AfterPop(NewReceiver());
    var got := r.(op := Got([item]));
    assert r.op.Reading? && r.box.open && r.called == [];
    assert got.op == Got([item]) && AfterRead(got).box.rest == [item] && AfterRead(got).box.open;
    assert AfterRead(got).called == [];
    hide *;
    var d0 := BeginLog<V>(1);
    ShowsStart<V>();
    ShowsLoopEnded(d0, r);
    var d1 := Act(d0, LoopEnded(0));
    ShowsLogged(d1, x, 0, r);
    var d2 := Act(d1, Logged(0, x, 0));
    ShowsSigned(d2, [Text(x)], r);
    var d3 := Act(d2, Signed(0));
    ShowsFilled(d3, [Text(x)], item, r);
    var d4 := Act(d3, Reader(Fill(0, 1)));
    ShowsHandled(d4, [Text(x)], item, got);
    var d5 := Act(d4, Reader(HandleRead(0)));
    ShowsConsumed(d5, [Text(x)], item, AfterRead(got));
    d := Act(d5, Consume);
    ActsNone(d0);
    Next(d0, [], d0, LoopEnded(0));
    Next(d0, [] + [LoopEnded(0)], d1, Logged(0, x, 0));
    Next(d0, [] + [LoopEnded(0)] + [Logged(0, x, 0)], d2, Signed(0));
    actions := [] + [LoopEnded(0)] + [Logged(0, x, 0)] + [Signed(0)];
    Next(d0, actions, d3, Reader(Fill(0, 1)));
    actions := actions + [Reader(Fill(0, 1))];
    Next(d0, actions, d4, Reader(HandleRead(0)));
    actions := actions + [Reader(HandleRead(0))];
    Next(d0, actions, d5, Consume);
    actions := actions + [Consume];
    OnlyItem(item);
  }

  lemma OnlyItem<V>(item: Item<Message<V>>)
    ensures From([item], item.source) == [item.value]
  {
    assert [item][..0] == [];
  }
}
