/** A record of what happens in an event loop (reactor.c), and what a round of the loop owes to its operations. */
module ReactorLog {
  import opened Common
  import opened OperationPlaces

  /** What a callback may do. `posts` is what the kernel completes if the submission ring happens to be full. */
  datatype Op<F> =
    | Next(f: F)
    | Start(f: F, posts: seq<Cqe>)
    | CancelNext(user: nat, f: F)
    | CancelRing(user: nat, f: F, none: F, posts: seq<Cqe>)

  /**
   * An operation began, for the next round or in the submission ring; a callback was put in place of another; a
   * completion entered the completion ring; a callback was called, for a completion or for an entry of a vector.
   */
  datatype Entry<F> =
    | Began(user: nat, f: F, ring: bool)
    | Put(user: nat, f: F)
    | Posted(c: Cqe)
    | Called(user: nat, f: F, res: int, ring: bool)

  /** The callback that the user's memory holds at the end of a log. */
  function Held<F>(log: seq<Entry<F>>, user: nat): Option<F> {
    if log == [] then None
    else
      var e := log[|log| - 1];
      if (e.Began? || e.Put?) && e.user == user then Some(e.f) else Held(log[..|log| - 1], user)
  }

  /** Each call is one of the callback that the user holds at that time. */
  ghost predicate Faithful<F>(log: seq<Entry<F>>) {
    forall k :: 0 <= k < |log| && log[k].Called? ==> HeldAt(log, k, log[k].user) == Some(log[k].f)
  }

  function HeldAt<F>(log: seq<Entry<F>>, k: nat, user: nat): Option<F>
    requires k <= |log|
  {
    Held(log[..k], user)
  }

  /** The memory of each live user is what the log says. */
  ghost predicate Remembers<F>(log: seq<Entry<F>>, callbacks: map<nat, F>) {
    Faithful(log) && forall u :: u in callbacks ==> Held(log, u) == Some(callbacks[u])
  }

  /** The completions that entered the ring. */
  function Posts<F>(log: seq<Entry<F>>): seq<Cqe> {
    if log == [] then []
    else
      var e := log[|log| - 1];
      Posts(log[..|log| - 1]) + (if e.Posted? then [e.c] else [])
  }

  /** What the loop and the callbacks did, without the kernel's part. */
  function Acts<F>(log: seq<Entry<F>>): seq<Entry<F>> {
    if log == [] then []
    else
      var e := log[|log| - 1];
      Acts(log[..|log| - 1]) + (if e.Posted? then [] else [e])
  }

  /** The operations begun for the next round. */
  function Nexts<F>(log: seq<Entry<F>>): seq<nat> {
    if log == [] then []
    else
      var e := log[|log| - 1];
      Nexts(log[..|log| - 1]) + (if e.Began? && !e.ring then [e.user] else [])
  }

  lemma Last<F>(log: seq<Entry<F>>, e: Entry<F>)
    ensures Posts(log + [e]) == Posts(log) + (if e.Posted? then [e.c] else [])
    ensures Acts(log + [e]) == Acts(log) + (if e.Posted? then [] else [e])
    ensures Nexts(log + [e]) == Nexts(log) + (if e.Began? && !e.ring then [e.user] else [])
  {
    assert (log + [e])[..|log|] == log;
  }

  lemma Together<T>(a: seq<T>, b: seq<T>, c: seq<T>)
    ensures a + b + c == a + (b + c)
  {
  }

  lemma {:induction false} Append<F>(a: seq<Entry<F>>, b: seq<Entry<F>>)
    ensures Posts(a + b) == Posts(a) + Posts(b)
    ensures Acts(a + b) == Acts(a) + Acts(b)
    ensures Nexts(a + b) == Nexts(a) + Nexts(b)
  {
    if b == [] {
      assert a + b == a;
    } else {
      var c, e := b[..|b| - 1], b[|b| - 1];
      hide *;
      Append(a, c);
      assert b == c + [e] && a + b == a + c + [e];
      Last(a + c, e);
      Last(c, e);
      Together(Posts(a), Posts(c), if e.Posted? then [e.c] else []);
      Together(Acts(a), Acts(c), if e.Posted? then [] else [e]);
      Together(Nexts(a), Nexts(c), if e.Began? && !e.ring then [e.user] else []);
    }
  }

  lemma Empty<F>()
    ensures Posts<F>([]) == [] && Acts<F>([]) == [] && Nexts<F>([]) == []
  {
  }

  lemma One<F>(e: Entry<F>)
    ensures Posts([e]) == (if e.Posted? then [e.c] else [])
    ensures Acts([e]) == (if e.Posted? then [] else [e])
    ensures Nexts([e]) == (if e.Began? && !e.ring then [e.user] else [])
  {
    assert [e][..0] == [];
  }

  lemma FaithfulMore<F>(log: seq<Entry<F>>, e: Entry<F>)
    requires Faithful(log) && (e.Called? ==> Held(log, e.user) == Some(e.f))
    ensures Faithful(log + [e])
  {
    hide Held;
    var more := log + [e];
    forall k | 0 <= k < |more| && more[k].Called? ensures HeldAt(more, k, more[k].user) == Some(more[k].f) {
      if k < |log| {
        assert more[..k] == log[..k];
        assert HeldAt(log, k, log[k].user) == Some(log[k].f);
      } else {
        assert more[..k] == log;
      }
    }
  }

  lemma HeldMore<F>(log: seq<Entry<F>>, e: Entry<F>, user: nat)
    ensures Held(log + [e], user) == if (e.Began? || e.Put?) && e.user == user then Some(e.f) else Held(log, user)
  {
    assert (log + [e])[..|log|] == log;
  }

  /** A callback is stored for a user. */
  lemma RemembersStored<F>(log: seq<Entry<F>>, callbacks: map<nat, F>, e: Entry<F>)
    requires Remembers(log, callbacks) && (e.Began? || e.Put?)
    ensures Remembers(log + [e], callbacks[e.user := e.f])
  {
    hide Held, Faithful;
    FaithfulMore(log, e);
    forall u | u in callbacks[e.user := e.f] ensures Held(log + [e], u) == Some(callbacks[e.user := e.f][u]) {
      HeldMore(log, e, u);
    }
  }

  lemma RemembersPosted<F>(log: seq<Entry<F>>, callbacks: map<nat, F>, e: Entry<F>)
    requires Remembers(log, callbacks)
    requires e.Posted? || (e.Called? && e.user in callbacks && e.f == callbacks[e.user])
    ensures Remembers(log + [e], callbacks)
  {
    hide Held, Faithful;
    FaithfulMore(log, e);
    forall u | u in callbacks ensures Held(log + [e], u) == Some(callbacks[u]) {
      HeldMore(log, e, u);
    }
  }

  lemma RemembersFewer<F>(log: seq<Entry<F>>, callbacks: map<nat, F>, user: nat)
    requires Remembers(log, callbacks)
    ensures Remembers(log, callbacks - {user})
  {
    hide Held, Faithful;
  }

  // ---- from one time to a later one

  /** The log at some time, the completion ring, and the vector for the next round. */
  datatype Mark<F> = Mark(log: seq<Entry<F>>, ring: seq<Cqe>, vector: seq<nat>)

  /** What was logged in between. */
  function Since<F>(a: Mark<F>, b: Mark<F>): seq<Entry<F>> {
    if |a.log| <= |b.log| then b.log[|a.log|..] else []
  }

  /** What was done in between. */
  function Done<F>(a: Mark<F>, b: Mark<F>): seq<Entry<F>> {
    Acts(Since(a, b))
  }

  /** The ring and the vector got what the log says, and nothing was taken from them. */
  ghost predicate Grown<F>(a: Mark<F>, b: Mark<F>) {
    a.log <= b.log && b.ring == a.ring + Posts(Since(a, b)) && b.vector == a.vector + Nexts(Since(a, b))
  }

  lemma GrownNot<F>(a: Mark<F>)
    ensures Grown(a, a) && Done(a, a) == [] && Since(a, a) == []
  {
  }

  lemma GrownOne<F>(a: Mark<F>, b: Mark<F>, e: Entry<F>)
    requires b.log == a.log + [e] && b.ring == a.ring + (if e.Posted? then [e.c] else [])
    requires b.vector == a.vector + (if e.Began? && !e.ring then [e.user] else [])
    ensures Grown(a, b) && Done(a, b) == if e.Posted? then [] else [e]
  {
    hide Acts, Posts, Nexts;
    One(e);
    assert Since(a, b) == [e];
  }

  lemma SinceThen<F>(a: Mark<F>, b: Mark<F>, c: Mark<F>)
    requires a.log <= b.log <= c.log
    ensures Since(a, c) == Since(a, b) + Since(b, c)
    ensures Done(a, c) == Done(a, b) + Done(b, c)
    ensures Posts(Since(a, c)) == Posts(Since(a, b)) + Posts(Since(b, c))
    ensures Nexts(Since(a, c)) == Nexts(Since(a, b)) + Nexts(Since(b, c))
  {
    hide Acts, Posts, Nexts;
    Append(Since(a, b), Since(b, c));
    assert Since(a, c) == Since(a, b) + Since(b, c);
  }

  lemma GrownThen<F>(a: Mark<F>, b: Mark<F>, c: Mark<F>)
    requires Grown(a, b) && Grown(b, c)
    ensures Grown(a, c) && Done(a, c) == Done(a, b) + Done(b, c)
  {
    hide Acts, Posts, Nexts, Since, Done;
    SinceThen(a, b, c);
    Together(a.ring, Posts(Since(a, b)), Posts(Since(b, c)));
    Together(a.vector, Nexts(Since(a, b)), Nexts(Since(b, c)));
  }

  lemma SameLog<F>(a: Mark<F>, b: Mark<F>, c: Mark<F>)
    requires a.log == b.log
    ensures Done(a, c) == Done(b, c)
  {
  }

  lemma GrownParts<F>(a: Mark<F>, b: Mark<F>)
    requires Grown(a, b)
    ensures a.log <= b.log && b.ring == a.ring + Posts(Since(a, b)) && b.vector == a.vector + Nexts(Since(a, b))
  {
  }

  // ---- what callbacks do

  /** Only an unfinished operation is cancelled, so a cancellation may come to nothing. */
  ghost predicate DoesOne<F>(op: Op<F>, acts: seq<Entry<F>>) {
    match op
    case Next(f) => |acts| == 1 && acts[0].Began? && acts[0].f == f && !acts[0].ring
    case Start(f, _) => |acts| == 1 && acts[0].Began? && acts[0].f == f && acts[0].ring
    case CancelNext(user, f) => acts == [] || acts == [Put(user, f)]
    case CancelRing(user, f, none, _) =>
      acts == [] || (|acts| == 2 && acts[0] == Put(user, f) && acts[1].Began? && acts[1].f == none && acts[1].ring)
  }

  /** The callback did these things, one after the other, and nothing else. */
  ghost predicate Does<F>(ops: seq<Op<F>>, acts: seq<Entry<F>>) {
    if ops == [] then acts == []
    else
      exists k :: 0 <= k <= |acts| && Does(ops[..|ops| - 1], acts[..k]) && DoesOne(ops[|ops| - 1], acts[k..])
  }

  lemma DoesNext<F>(user: nat, f: F)
    ensures DoesOne(Next(f), [Began(user, f, false)])
  {
  }

  lemma DoesStart<F>(user: nat, f: F, posts: seq<Cqe>)
    ensures DoesOne(Start(f, posts), [Began(user, f, true)])
  {
  }

  lemma DoesCancel<F>(op: Op<F>, u: nat)
    requires op.CancelNext? || op.CancelRing?
    ensures DoesOne(op, []) && (op.CancelNext? ==> DoesOne(op, [Put(op.user, op.f)]))
    ensures op.CancelRing? ==> DoesOne(op, [Put(op.user, op.f), Began(u, op.none, true)])
  {
  }

  lemma DoesNothing<F>()
    ensures Does<F>([], [])
  {
  }

  lemma DoesMore<F>(ops: seq<Op<F>>, acts: seq<Entry<F>>, op: Op<F>, more: seq<Entry<F>>)
    requires Does(ops, acts) && DoesOne(op, more)
    ensures Does(ops + [op], acts + more)
  {
    hide DoesOne;
    var k := |acts|;
    assert (ops + [op])[..|ops|] == ops && (acts + more)[..k] == acts && (acts + more)[k..] == more;
  }

  predicate NoCalls<F>(acts: seq<Entry<F>>) {
    forall k :: 0 <= k < |acts| ==> !acts[k].Called?
  }

  lemma {:induction false} DoesNoCalls<F>(ops: seq<Op<F>>, acts: seq<Entry<F>>)
    requires Does(ops, acts)
    ensures NoCalls(acts)
  {
    if ops != [] {
      var k :| 0 <= k <= |acts| && Does(ops[..|ops| - 1], acts[..k]) && DoesOne(ops[|ops| - 1], acts[k..]);
      DoesNoCalls(ops[..|ops| - 1], acts[..k]);
      assert forall j :: 0 <= j < k ==> acts[j] == acts[..k][j];
      assert forall j :: k <= j < |acts| ==> acts[j] == acts[k..][j - k];
    }
  }

  // ---- what a round owes

  /** A call that is due; a silent one is not made. */
  datatype Due = Due(user: nat, res: int, silent: bool, ring: bool)

  function VectorDues(users: seq<nat>): (r: seq<Due>)
    ensures |r| == |users| && forall k :: 0 <= k < |users| ==> r[k] == Due(users[k], 0, false, false)
  {
    seq(|users|, k requires 0 <= k < |users| => Due(users[k], 0, false, false))
  }

  /** One call for each completion, unless it is a notification. */
  function RingDues(cs: seq<Cqe>): (r: seq<Due>)
    ensures |r| == |cs| && forall k :: 0 <= k < |cs| ==> r[k] == Due(cs[k].user, cs[k].res, cs[k].notif, true)
  {
    seq(|cs|, k requires 0 <= k < |cs| => Due(cs[k].user, cs[k].res, cs[k].notif, true))
  }

  function OpsOf<F>(reactions: seq<seq<Op<F>>>, k: nat): seq<Op<F>> {
    if k < |reactions| then reactions[k] else []
  }

  /** A call, and what its callback does. */
  ghost predicate CallThen<F>(call: Entry<F>, ops: seq<Op<F>>, acts: seq<Entry<F>>) {
    acts != [] && acts[0] == call && Does(ops, acts[1..])
  }

  /** The call that is due, and what its callback does. */
  ghost predicate Answers<F>(d: Due, ops: seq<Op<F>>, acts: seq<Entry<F>>) {
    if d.silent then acts == []
    else acts != [] && acts[0].Called? && CallThen(Called(d.user, acts[0].f, d.res, d.ring), ops, acts)
  }

  /** All calls that are due are made, in order, each with what its callback does, and nothing else is done. */
  ghost predicate Served<F>(dues: seq<Due>, reactions: seq<seq<Op<F>>>, acts: seq<Entry<F>>) {
    if dues == [] then acts == []
    else
      var n := |dues| - 1;
      exists k :: 0 <= k <= |acts| && Served(dues[..n], reactions, acts[..k])
                  && Answers(dues[n], OpsOf(reactions, n), acts[k..])
  }

  lemma ServedNone<F>(reactions: seq<seq<Op<F>>>)
    ensures Served([], reactions, [])
  {
  }

  lemma ServedMore<F>(dues: seq<Due>, reactions: seq<seq<Op<F>>>, acts: seq<Entry<F>>, d: Due, more: seq<Entry<F>>)
    requires Served(dues, reactions, acts) && Answers(d, OpsOf(reactions, |dues|), more)
    ensures Served(dues + [d], reactions, acts + more)
  {
    hide Answers;
    var k := |acts|;
    assert (dues + [d])[..|dues|] == dues && (acts + more)[..k] == acts && (acts + more)[k..] == more;
  }

  lemma VectorMore(users: seq<nat>, u: nat)
    ensures VectorDues(users + [u]) == VectorDues(users) + [Due(u, 0, false, false)]
  {
  }

  lemma RingMore(cs: seq<Cqe>, c: Cqe)
    ensures RingDues(cs + [c]) == RingDues(cs) + [Due(c.user, c.res, c.notif, true)]
  {
  }

  lemma CallAnswers<F>(d: Due, f: F, ops: seq<Op<F>>, acts: seq<Entry<F>>)
    requires !d.silent && CallThen(Called(d.user, f, d.res, d.ring), ops, acts)
    ensures Answers(d, ops, acts)
  {
    hide Does;
  }

  lemma SilentAnswers<F>(d: Due, ops: seq<Op<F>>)
    requires d.silent
    ensures Answers(d, ops, [])
  {
  }

  lemma VectorNext<F>(users: seq<nat>, n: nat, reactions: seq<seq<Op<F>>>, acts: seq<Entry<F>>, f: F,
                      ops: seq<Op<F>>, more: seq<Entry<F>>)
    requires n < |users| && Served(VectorDues(users[..n]), reactions, acts) && ops == OpsOf(reactions, n)
    requires CallThen(Called(users[n], f, 0, false), ops, more)
    ensures Served(VectorDues(users[..n + 1]), reactions, acts + more)
  {
    hide *;
    var d := Due(users[n], 0, false, false);
    CallAnswers(d, f, ops, more);
    VectorSize(users[..n]);
    ServedMore(VectorDues(users[..n]), reactions, acts, d, more);
    VectorMore(users[..n], users[n]);
    assert users[..n] + [users[n]] == users[..n + 1];
  }

  lemma VectorSize(users: seq<nat>)
    ensures |VectorDues(users)| == |users|
  {
  }

  lemma RingSize(cs: seq<Cqe>)
    ensures |RingDues(cs)| == |cs|
  {
  }

  /** The completions that were in the ring at a, or have entered it up to b. */
  function Arrived<F>(a: Mark<F>, b: Mark<F>): seq<Cqe> {
    a.ring + Posts(Since(a, b))
  }

  /** From a to b, the first n of these completions were taken out of the ring and answered. */
  ghost predicate Answered<F>(a: Mark<F>, b: Mark<F>, n: nat, reactions: seq<seq<Op<F>>>) {
    && a.log <= b.log && b.vector == a.vector + Nexts(Since(a, b))
    && n <= |Arrived(a, b)| && b.ring == Arrived(a, b)[n..]
    && Served(RingDues(Arrived(a, b)[..n]), reactions, Done(a, b))
  }

  lemma NothingAnswered<F>(a: Mark<F>, b: Mark<F>, reactions: seq<seq<Op<F>>>)
    requires Grown(a, b) && Done(a, b) == []
    ensures Answered(a, b, 0, reactions)
  {
    hide Posts, Nexts, Since, Done;
    assert RingDues(Arrived(a, b)[..0]) == [];
    ServedNone(reactions);
  }

  /** One more completion is taken and answered, while others may have come. */
  lemma AnsweredOne<F>(a: Mark<F>, b: Mark<F>, c: Mark<F>, n: nat, reactions: seq<seq<Op<F>>>, cqe: Cqe, f: F,
                       ops: seq<Op<F>>)
    requires Answered(a, b, n, reactions) && b.ring != [] && cqe == b.ring[0] && ops == OpsOf(reactions, n)
    requires Grown(b.(ring := b.ring[1..]), c)
    requires cqe.notif ==> Done(b, c) == []
    requires !cqe.notif ==> CallThen(Called(cqe.user, f, cqe.res, true), ops, Done(b, c))
    ensures Answered(a, c, n + 1, reactions)
  {
    hide *;
    var d := Due(cqe.user, cqe.res, cqe.notif, true);
    var all, more := Arrived(a, b), Posts(Since(b, c));
    AnsweredParts(a, b, n, reactions);
    GrownOnward(b, c);
    if cqe.notif {
      SilentAnswers(d, ops);
    } else {
      CallAnswers(d, f, ops, Done(b, c));
    }
    SinceThen(a, b, c);
    ArrivedThen(a, b, c);
    Together(a.vector, Nexts(Since(a, b)), Nexts(Since(b, c)));
    RingSize(all[..n]);
    ServedMore(RingDues(all[..n]), reactions, Done(a, b), d, Done(b, c));
    RingMore(all[..n], cqe);
    assert (all + more)[..n + 1] == all[..n] + [cqe];
    assert (all + more)[n + 1..] == all[n..][1..] + more;
    AnsweredAgain(a, c, n + 1, reactions);
  }

  lemma AnsweredParts<F>(a: Mark<F>, b: Mark<F>, n: nat, reactions: seq<seq<Op<F>>>)
    requires Answered(a, b, n, reactions)
    ensures a.log <= b.log && b.vector == a.vector + Nexts(Since(a, b))
    ensures n <= |Arrived(a, b)| && b.ring == Arrived(a, b)[n..]
    ensures Served(RingDues(Arrived(a, b)[..n]), reactions, Done(a, b))
  {
    hide Arrived, Served;
  }

  lemma AnsweredAgain<F>(a: Mark<F>, b: Mark<F>, n: nat, reactions: seq<seq<Op<F>>>)
    requires a.log <= b.log && b.vector == a.vector + Nexts(Since(a, b))
    requires n <= |Arrived(a, b)| && b.ring == Arrived(a, b)[n..]
    requires Served(RingDues(Arrived(a, b)[..n]), reactions, Done(a, b))
    ensures Answered(a, b, n, reactions)
  {
    hide Arrived, Served;
  }

  lemma GrownOnward<F>(b: Mark<F>, c: Mark<F>)
    requires b.ring != [] && Grown(b.(ring := b.ring[1..]), c)
    ensures b.log <= c.log && c.ring == b.ring[1..] + Posts(Since(b, c)) && c.vector == b.vector + Nexts(Since(b, c))
  {
    hide Posts, Nexts;
  }

  lemma ArrivedThen<F>(a: Mark<F>, b: Mark<F>, c: Mark<F>)
    requires a.log <= b.log <= c.log
    ensures Arrived(a, c) == Arrived(a, b) + Posts(Since(b, c))
  {
    hide Posts, Since;
    SinceThen(a, b, c);
    Together(a.ring, Posts(Since(a, b)), Posts(Since(b, c)));
  }

  lemma AllAnswered<F>(a: Mark<F>, b: Mark<F>, n: nat, reactions: seq<seq<Op<F>>>)
    requires Answered(a, b, n, reactions) && b.ring == []
    ensures n == |Arrived(a, b)|
  {
    hide Served, Posts, Nexts, Since, Done;
  }

  lemma NothingRun<F>(reactions: seq<seq<Op<F>>>)
    ensures Served<F>(VectorDues([]), reactions, [])
  {
    assert VectorDues([]) == [];
  }

  lemma NothingDue<F>(a: Mark<F>, reactions: seq<seq<Op<F>>>)
    requires a.ring == []
    ensures Answered(a, a, |Arrived(a, a)|, reactions)
  {
    GrownNot(a);
    NothingAnswered(a, a, reactions);
    assert Arrived(a, a) == [];
    hide Answered;
  }

  /** The entries of the vector at a are called, in order, and the new vector has what was begun meanwhile. */
  ghost predicate HalfDone<F>(a: Mark<F>, b: Mark<F>, reactions: seq<seq<Op<F>>>) {
    Grown(a.(vector := []), b) && Served(VectorDues(a.vector), reactions, Done(a, b))
  }

  /**
   * The entries of the vector at a are called in order, then one callback for each completion that was in the ring or
   * entered it and is not a notification, in the order of the ring. Each callee does what its callback does, and
   * nothing else is done. No completion is left over.
   */
  ghost predicate RoundDone<F>(a: Mark<F>, b: Mark<F>, reactions: seq<seq<Op<F>>>) {
    && a.log <= b.log && b.ring == [] && b.vector == Nexts(Since(a, b))
    && Served(VectorDues(a.vector) + RingDues(Arrived(a, b)), reactions, Done(a, b))
  }

  lemma HalfOf<F>(a: Mark<F>, b: Mark<F>, reactions: seq<seq<Op<F>>>)
    requires HalfDone(a, b, reactions)
    ensures a.log <= b.log && b.ring == Arrived(a, b) && b.vector == Nexts(Since(a, b))
    ensures Served(VectorDues(a.vector), reactions, Done(a, b))
  {
    hide Posts, Nexts, Served, VectorDues;
    assert [] + Nexts(Since(a, b)) == Nexts(Since(a, b));
  }

  /** The vectors have changed places, and the current one was run. */
  lemma HalfRun<F>(a: Mark<F>, b: Mark<F>, reactions: seq<seq<Op<F>>>)
    requires Grown(a.(vector := []), b) && Served(VectorDues(a.vector), reactions, Done(a.(vector := []), b))
    ensures HalfDone(a, b, reactions)
  {
    hide Grown, Served, VectorDues, Acts;
  }

  lemma HalfEmpty<F>(a: Mark<F>, reactions: seq<seq<Op<F>>>)
    requires a.vector == []
    ensures HalfDone(a, a, reactions)
  {
    GrownNot(a);
    NothingRun(reactions);
    hide Grown, Served;
  }

  /** The two halves of a round. */
  lemma RoundServed<F>(a: Mark<F>, b: Mark<F>, c: Mark<F>, reactions: seq<seq<Op<F>>>)
    requires HalfDone(a, b, reactions)
    requires Answered(b, c, |Arrived(b, c)|, Later(reactions, |a.vector|))
    ensures RoundDone(a, c, reactions)
  {
    hide *;
    HalfOf(a, b, reactions);
    AnsweredParts(b, c, |Arrived(b, c)|, Later(reactions, |a.vector|));
    SinceThen(a, b, c);
    BothHalves(a, b, c);
    VectorSize(a.vector);
    var all := Arrived(b, c);
    assert all[..|all|] == all && all[|all|..] == [];
    ServedThen(VectorDues(a.vector), RingDues(all), reactions, Done(a, b), Done(b, c));
    RoundOf(a, c, reactions);
  }

  lemma BothHalves<F>(a: Mark<F>, b: Mark<F>, c: Mark<F>)
    requires a.log <= b.log <= c.log && b.ring == Arrived(a, b)
    ensures Arrived(b, c) == Arrived(a, c)
  {
    hide Posts, Since;
    ArrivedThen(a, b, c);
  }

  lemma RoundOf<F>(a: Mark<F>, b: Mark<F>, reactions: seq<seq<Op<F>>>)
    requires a.log <= b.log && b.ring == [] && b.vector == Nexts(Since(a, b))
    requires Served(VectorDues(a.vector) + RingDues(Arrived(a, b)), reactions, Done(a, b))
    ensures RoundDone(a, b, reactions)
  {
  }

  lemma LoudNone()
    ensures Loud([]) == []
  {
  }

  function Later<F>(reactions: seq<seq<Op<F>>>, n: nat): seq<seq<Op<F>>> {
    if n <= |reactions| then reactions[n..] else []
  }

  /** What is due later is served after what is due first. */
  lemma {:induction false} ServedThen<F>(a: seq<Due>, b: seq<Due>, reactions: seq<seq<Op<F>>>, x: seq<Entry<F>>,
                                         y: seq<Entry<F>>)
    requires Served(a, reactions, x) && Served(b, Later(reactions, |a|), y)
    ensures Served(a + b, reactions, x + y)
    decreases |b|
  {
    hide Answers;
    if b == [] {
      assert a + b == a && x + y == x;
    } else {
      var n := |b| - 1;
      var k :| 0 <= k <= |y| && Served(b[..n], Later(reactions, |a|), y[..k])
               && Answers(b[n], OpsOf(Later(reactions, |a|), n), y[k..]);
      ServedThen(a, b[..n], reactions, x, y[..k]);
      assert OpsOf(Later(reactions, |a|), n) == OpsOf(reactions, |a| + n);
      ServedMore(a + b[..n], reactions, x + y[..k], b[n], y[k..]);
      assert a + b[..n] + [b[n]] == a + b && x + y[..k] + y[k..] == x + y;
    }
  }

  // ---- calls over any part of the log

  /** The calls for completions, with their results. */
  function RingCalls<F>(log: seq<Entry<F>>): seq<(nat, int)> {
    if log == [] then []
    else
      var e := log[|log| - 1];
      RingCalls(log[..|log| - 1]) + (if e.Called? && e.ring then [(e.user, e.res)] else [])
  }

  /** The calls for entries of the vectors. */
  function NextCalls<F>(log: seq<Entry<F>>): seq<nat> {
    if log == [] then []
    else
      var e := log[|log| - 1];
      NextCalls(log[..|log| - 1]) + (if e.Called? && !e.ring then [e.user] else [])
  }

  /** The completions that call somebody. */
  function Loud(cs: seq<Cqe>): seq<(nat, int)> {
    if cs == [] then []
    else
      var c := cs[|cs| - 1];
      Loud(cs[..|cs| - 1]) + (if c.notif then [] else [(c.user, c.res)])
  }

  lemma LastCall<F>(log: seq<Entry<F>>, e: Entry<F>)
    ensures RingCalls(log + [e]) == RingCalls(log) + (if e.Called? && e.ring then [(e.user, e.res)] else [])
    ensures NextCalls(log + [e]) == NextCalls(log) + (if e.Called? && !e.ring then [e.user] else [])
  {
    assert (log + [e])[..|log|] == log;
  }

  lemma {:induction false} CallsAppend<F>(a: seq<Entry<F>>, b: seq<Entry<F>>)
    ensures RingCalls(a + b) == RingCalls(a) + RingCalls(b) && NextCalls(a + b) == NextCalls(a) + NextCalls(b)
  {
    if b == [] {
      assert a + b == a;
    } else {
      var c, e := b[..|b| - 1], b[|b| - 1];
      hide *;
      CallsAppend(a, c);
      assert b == c + [e] && a + b == a + c + [e];
      LastCall(a + c, e);
      LastCall(c, e);
      Together(RingCalls(a), RingCalls(c), if e.Called? && e.ring then [(e.user, e.res)] else []);
      Together(NextCalls(a), NextCalls(c), if e.Called? && !e.ring then [e.user] else []);
    }
  }

  lemma LastLoud(cs: seq<Cqe>, c: Cqe)
    ensures Loud(cs + [c]) == Loud(cs) + (if c.notif then [] else [(c.user, c.res)])
  {
    assert (cs + [c])[..|cs|] == cs;
  }

  lemma {:induction false} LoudAppend(a: seq<Cqe>, b: seq<Cqe>)
    ensures Loud(a + b) == Loud(a) + Loud(b)
  {
    if b == [] {
      assert a + b == a;
    } else {
      var cs, c := b[..|b| - 1], b[|b| - 1];
      hide *;
      LoudAppend(a, cs);
      assert b == cs + [c] && a + b == a + cs + [c];
      LastLoud(a + cs, c);
      LastLoud(cs, c);
      Together(Loud(a), Loud(cs), if c.notif then [] else [(c.user, c.res)]);
    }
  }

  lemma {:induction false} CallsOfActs<F>(log: seq<Entry<F>>)
    ensures RingCalls(Acts(log)) == RingCalls(log) && NextCalls(Acts(log)) == NextCalls(log)
  {
    if log != [] {
      var c, e := log[..|log| - 1], log[|log| - 1];
      hide *;
      CallsOfActs(c);
      assert log == c + [e];
      Last(c, e);
      LastCall(c, e);
      LastCall(Acts(c), e);
      assert Acts(c) + [] == Acts(c) && RingCalls(c) + [] == RingCalls(c) && NextCalls(c) + [] == NextCalls(c);
    }
  }

  lemma OneCall<F>(e: Entry<F>)
    ensures RingCalls([e]) == if e.Called? && e.ring then [(e.user, e.res)] else []
    ensures NextCalls([e]) == if e.Called? && !e.ring then [e.user] else []
  {
    assert [e][..0] == [];
  }

  lemma {:induction false} NoneCalled<F>(acts: seq<Entry<F>>)
    requires NoCalls(acts)
    ensures RingCalls(acts) == [] && NextCalls(acts) == []
  {
    if acts != [] {
      NoneCalled(acts[..|acts| - 1]);
    }
  }

  /** What is called when a due is answered. */
  lemma AnswerCalls<F>(d: Due, ops: seq<Op<F>>, acts: seq<Entry<F>>)
    requires Answers(d, ops, acts)
    ensures RingCalls(acts) == if d.ring && !d.silent then [(d.user, d.res)] else []
    ensures NextCalls(acts) == if !d.ring && !d.silent then [d.user] else []
  {
    hide RingCalls, NextCalls, Does;
    if d.silent {
      NoneCalled(acts);
    } else {
      DoesNoCalls(ops, acts[1..]);
      NoneCalled(acts[1..]);
      CallsAppend([acts[0]], acts[1..]);
      OneCall(acts[0]);
      assert acts == [acts[0]] + acts[1..];
    }
  }

  lemma {:induction false} VectorServed<F>(users: seq<nat>, reactions: seq<seq<Op<F>>>, acts: seq<Entry<F>>)
    requires Served(VectorDues(users), reactions, acts)
    ensures RingCalls(acts) == [] && NextCalls(acts) == users
    decreases |users|
  {
    hide RingCalls, NextCalls, Answers;
    if users == [] {
      NoneCalled(acts);
    } else {
      var n := |users| - 1;
      var k :| 0 <= k <= |acts| && Served(VectorDues(users)[..n], reactions, acts[..k])
               && Answers(VectorDues(users)[n], OpsOf(reactions, n), acts[k..]);
      assert VectorDues(users)[..n] == VectorDues(users[..n]);
      VectorServed(users[..n], reactions, acts[..k]);
      AnswerCalls(VectorDues(users)[n], OpsOf(reactions, n), acts[k..]);
      CallsAppend(acts[..k], acts[k..]);
      assert acts == acts[..k] + acts[k..] && users == users[..n] + [users[n]];
    }
  }

  /** A round calls the entries of its vector, and one callback for each completion that is not silent. */
  lemma {:induction false} RoundCalls<F>(users: seq<nat>, cs: seq<Cqe>, reactions: seq<seq<Op<F>>>, acts: seq<Entry<F>>)
    requires Served(VectorDues(users) + RingDues(cs), reactions, acts)
    ensures NextCalls(acts) == users && RingCalls(acts) == Loud(cs)
    decreases |cs|
  {
    hide RingCalls, NextCalls, Answers;
    var dues := VectorDues(users) + RingDues(cs);
    if cs == [] {
      assert dues == VectorDues(users);
      VectorServed(users, reactions, acts);
    } else {
      var n := |dues| - 1;
      var k :| 0 <= k <= |acts| && Served(dues[..n], reactions, acts[..k])
               && Answers(dues[n], OpsOf(reactions, n), acts[k..]);
      assert dues[..n] == VectorDues(users) + RingDues(cs[..|cs| - 1]);
      RoundCalls(users, cs[..|cs| - 1], reactions, acts[..k]);
      AnswerCalls(dues[n], OpsOf(reactions, n), acts[k..]);
      CallsAppend(acts[..k], acts[k..]);
      assert acts == acts[..k] + acts[k..];
    }
  }

  /**
   * From a to b, the operations begun for the next round are called in the order of their starts, those in the vector
   * at b are still to come, and each completion of the ring that is no notification is called with its result.
   */
  ghost predicate AllCalled<F>(a: Mark<F>, b: Mark<F>) {
    && a.log <= b.log
    && NextCalls(Since(a, b)) + b.vector == a.vector + Nexts(Since(a, b))
    && RingCalls(Since(a, b)) + Loud(b.ring) == Loud(Arrived(a, b))
  }

  lemma CalledNot<F>(a: Mark<F>)
    ensures AllCalled(a, a)
  {
    assert Since(a, a) == [];
    assert a.ring + [] == a.ring;
  }

  lemma CalledRound<F>(a: Mark<F>, b: Mark<F>, c: Mark<F>, reactions: seq<seq<Op<F>>>)
    requires AllCalled(a, b) && RoundDone(b, c, reactions)
    ensures AllCalled(a, c)
  {
    hide Posts, Nexts, Since, Done, Served, RingCalls, NextCalls, Loud, VectorDues, RingDues, Arrived;
    RoundCalls(b.vector, Arrived(b, c), reactions, Done(b, c));
    DoneCalls(b, c);
    SinceThen(a, b, c);
    CallsAppend(Since(a, b), Since(b, c));
    LoudNone();
    LoudArrived(a, b, c);
    Together(RingCalls(Since(a, b)), Loud(b.ring), Loud(Posts(Since(b, c))));
    Together(NextCalls(Since(a, b)), b.vector, Nexts(Since(b, c)));
    Together(a.vector, Nexts(Since(a, b)), Nexts(Since(b, c)));
  }

  lemma DoneCalls<F>(b: Mark<F>, c: Mark<F>)
    ensures RingCalls(Done(b, c)) == RingCalls(Since(b, c)) && NextCalls(Done(b, c)) == NextCalls(Since(b, c))
  {
    hide RingCalls, NextCalls, Acts;
    CallsOfActs(Since(b, c));
  }

  lemma LoudArrived<F>(a: Mark<F>, b: Mark<F>, c: Mark<F>)
    requires a.log <= b.log <= c.log
    ensures Loud(Arrived(a, c)) == Loud(Arrived(a, b)) + Loud(Posts(Since(b, c)))
    ensures Loud(Arrived(b, c)) == Loud(b.ring) + Loud(Posts(Since(b, c)))
  {
    hide Loud, Posts, Since;
    ArrivedThen(a, b, c);
    LoudAppend(b.ring, Posts(Since(b, c)));
    LoudAppend(Arrived(a, b), Posts(Since(b, c)));
  }
}
