/** The event loop of a group's thread (reactor.c), with the write of the log producer as one of its operations. */
module FlowLoop {
  import opened Common
  import opened OperationPlaces
  import Q = QueueEnds

  /** `write` is the user of the log producer's write, if one is pending. */
  datatype Loop = Loop(live: set<nat>, places: Places, write: nat)

  /** A step of the loop or of the kernel that concerns another operation, or takes the oldest request. */
  datatype Turn =
    | Next(u: nat)
    | Start(s: Sqe)
    | Take
    | Post(c: Cqe)
    | Pop
    | Free(u: nat)
    | Run
    | Switch

  function NewLoop(): Loop {
    Loop({}, Places([], [], [], {}, [], {}), 0)
  }

  predicate CanTurn(l: Loop, op: Q.WriteOp, t: Turn) {
    var p := l.places;
    match t
    case Next(u) => u !in l.live
    case Start(s) => s.user !in l.live
    case Take => p.sq != []
    case Post(c) => c.user in p.kernel && (op.NoWrite? || c.user != l.write)
    case Pop => p.cq != [] && p.running == {} && (op.NoWrite? || p.cq[0].user != l.write)
    case Free(u) => p.running == {u}
    case Run => p.now != []
    case Switch => p.now == []
  }

  function AfterTurn(l: Loop, op: Q.WriteOp, t: Turn): Loop
    requires CanTurn(l, op, t)
  {
    var p := l.places;
    match t
    case Next(u) => l.(live := l.live + {u}, places := p.(next := p.next + [u]))
    case Start(s) => l.(live := l.live + {s.user}, places := p.(sq := p.sq + [s]))
    case Take => l.(places := p.(sq := p.sq[1..], kernel := p.kernel + {p.sq[0].user}))
    case Post(c) => l.(places := p.(cq := p.cq + [c], kernel := if c.more then p.kernel else p.kernel - {c.user}))
    case Pop => l.(places := p.(cq := p.cq[1..], running := if p.cq[0].more then {} else {p.cq[0].user}))
    case Free(u) => l.(live := l.live - {u}, places := p.(running := {}))
    case Run => l.(live := l.live - {p.now[0]}, places := p.(now := p.now[1..]))
    case Switch => l.(places := p.(now := p.next, next := []))
  }

  // ---- what the write goes through

  /** reactor_write: a new user and a request in the submission ring. */
  function Started(l: Loop, u: nat): Loop {
    l.(live := l.live + {u}, places := l.places.(sq := l.places.sq + [Sqe(u, None)]), write := u)
  }

  function LastOf(l: Loop, res: int): Cqe {
    Cqe(l.write, res, false, false)
  }

  /** The kernel is done with the write. */
  function Reported(l: Loop, res: int): Loop {
    var p := l.places;
    l.(places := p.(cq := p.cq + [LastOf(l, res)], kernel := p.kernel - {l.write}))
  }

  predicate CanAnswer(l: Loop) {
    l.places.cq != [] && l.places.cq[0].user == l.write && l.places.running == {}
  }

  function Popped(l: Loop): Loop
    requires CanAnswer(l)
  {
    l.(places := l.places.(cq := l.places.cq[1..], running := {l.write}))
  }

  function Freed(l: Loop, u: nat): Loop {
    l.(live := l.live - {u}, places := l.places.(running := {}))
  }

  /** The completion is taken, its handler starts the next write or none, and then the user is freed. */
  function Answered(l: Loop, again: bool, u: nat): Loop
    requires CanAnswer(l)
  {
    Freed(if again then Started(Popped(l), u) else Popped(l), l.write)
  }

  /** The write is where its operation is: in the submission ring or the kernel, or completed with its result. */
  ghost predicate Placed(l: Loop, op: Q.WriteOp) {
    match op
    case NoWrite => true
    case Writing =>
      && (l.write in Users(l.places.sq) || l.write in l.places.kernel)
      && forall k :: 0 <= k < |l.places.cq| ==> l.places.cq[k].user != l.write
    case Wrote(r) =>
      && LastOf(l, r) in l.places.cq
      && forall k :: 0 <= k < |l.places.cq| && l.places.cq[k].user == l.write ==> l.places.cq[k] == LastOf(l, r)
  }

  /** The loop accounts for all its users, the write's included. */
  ghost predicate Tied(l: Loop, op: Q.WriteOp) {
    Balanced(l.live, l.places) && Placed(l, op)
  }

  lemma TurnBalanced(l: Loop, op: Q.WriteOp, t: Turn)
    requires Balanced(l.live, l.places) && CanTurn(l, op, t)
    ensures Balanced(AfterTurn(l, op, t).live, AfterTurn(l, op, t).places)
  {
    hide Balanced;
    match t {
      case Next(u) => NextKeeps(l.live, l.places, u);
      case Start(s) => SubmitKeeps(l.live, l.places, s);
      case Take => TakeKeeps(l.live, l.places);
      case Post(c) => PostKeeps(l.live, l.places, c);
      case Pop => PopKeeps(l.live, l.places);
      case Free(u) => FinishKeeps(l.live, l.places, u);
      case Run => RunKeeps(l.live, l.places);
      case Switch => SwitchKeeps(l.live, l.places);
    }
  }

  lemma TurnPlaced(l: Loop, op: Q.WriteOp, t: Turn)
    requires Placed(l, op) && CanTurn(l, op, t)
    ensures Placed(AfterTurn(l, op, t), op)
  {
    var p, q := l.places, AfterTurn(l, op, t).places;
    match t {
      case Start(s) => assert Users(q.sq) == Users(p.sq) + [s.user];
      case Take => assert Users(p.sq) == [p.sq[0].user] + Users(q.sq);
      case Pop => assert p.cq == [p.cq[0]] + q.cq;
      case _ =>
    }
  }

  lemma TurnKeeps(l: Loop, op: Q.WriteOp, t: Turn)
    requires Tied(l, op) && CanTurn(l, op, t)
    ensures Tied(AfterTurn(l, op, t), op)
  {
    hide Balanced, Placed, CanTurn, AfterTurn;
    TurnBalanced(l, op, t);
    TurnPlaced(l, op, t);
  }

  /** No completion is there for a user that is not live. */
  lemma NoneForFresh(live: set<nat>, p: Places, u: nat)
    requires Balanced(live, p) && u !in live
    ensures forall k :: 0 <= k < |p.cq| ==> p.cq[k].user != u
  {
    OnePlace(live, p, u);
    forall k | 0 <= k < |p.cq| ensures p.cq[k].user != u {
      assert p.cq == p.cq[..k] + p.cq[k..];
      FinalsSplit(p.cq[..k], p.cq[k..]);
    }
  }

  lemma StartKeeps(l: Loop, u: nat)
    requires Tied(l, Q.NoWrite) && u !in l.live
    ensures Tied(Started(l, u), Q.Writing)
  {
    NoneForFresh(l.live, l.places, u);
    SubmitKeeps(l.live, l.places, Sqe(u, None));
    hide Balanced;
    assert Users(l.places.sq + [Sqe(u, None)]) == Users(l.places.sq) + [u];
  }

  lemma ReportKeeps(l: Loop, res: int)
    requires Tied(l, Q.Writing) && l.write in l.places.kernel
    ensures Tied(Reported(l, res), Q.Wrote(res))
  {
    hide Balanced;
    PostKeeps(l.live, l.places, LastOf(l, res));
  }

  /** The completion that the loop finds is the one for the operation, with its result, and the loop stays tied. */
  lemma AnswerKeeps(l: Loop, op: Q.WriteOp, again: bool, u: nat)
    requires Tied(l, op) && !op.NoWrite? && CanAnswer(l) && (again ==> u !in l.live)
    ensures op == Q.Wrote(l.places.cq[0].res)
    ensures Tied(Answered(l, again, u), if again then Q.Writing else Q.NoWrite)
  {
    hide Balanced;
    assert op.Wrote? && l.places.cq[0] == LastOf(l, op.result);
    PopKeeps(l.live, l.places);
    var m := if again then Started(Popped(l), u) else Popped(l);
    if again {
      StartKeeps(Popped(l), u);
    }
    FinishKeeps(m.live, m.places, l.write);
  }

  /** A pending write keeps its loop going. */
  lemma WriteIsLive(l: Loop, op: Q.WriteOp)
    requires Tied(l, op) && !op.NoWrite?
    ensures l.write in l.live
  {
    hide Followed, Finals;
    if op.Wrote? {
      FinalIsThere(l.places.cq, l.write);
      assert l.write in Finals(l.places.cq);
    }
    assert Holders(l.places)[l.write] > 0;
    OnePlace(l.live, l.places, l.write);
  }
}
