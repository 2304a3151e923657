/** The event loop (reactor.c): operations are started, run or completed, cancelled, and their users freed. */
module Reactors {
  import opened Common
  import opened OperationPlaces
  import opened Pools
  import opened ReactorLog
  import opened Rings

  const RING_SIZE := 4096

  /** What the kernel and the callbacks do in one round of the loop. */
  datatype Round<F> = Round(posts: seq<Cqe>, reactions: seq<seq<Op<F>>>)

  class Reactor<F> {
    const users: Pool
    // What the memory of each live user holds.
    var callbacks: map<nat, F>
    // The vector new entries go to, and the one being worked through, of which `done` entries are finished.
    var next: seq<nat>
    var now: seq<nat>
    var done: nat
    const sq: Ring<Sqe>
    var kernel: set<nat>
    const cq: Ring<Cqe>

    ghost var running: set<nat>
    // What has happened so far.
    ghost var log: seq<Entry<F>>

    ghost function Here(): Places
      requires done <= |now| && sq.Valid() && cq.Valid()
      reads this, sq, sq.slots, cq, cq.slots
    {
      Places(next, now[done..], sq.Contents(), kernel, cq.Contents(), running)
    }

    ghost predicate Stored()
      reads this, users, sq, cq
    {
      && users.Valid() && callbacks.Keys == users.live && Remembers(log, callbacks) && done <= |now|
      && sq.Valid() && cq.Valid() && sq.slots.Length == RING_SIZE && cq.slots.Length == 2 * RING_SIZE
      && sq.slots as object != cq.slots as object
    }

    ghost predicate Valid()
      reads this, users, sq, sq.slots, cq, cq.slots
    {
      Stored() && Balanced(users.live, Here())
    }

    /** Between two rounds of the loop. */
    ghost predicate Resting()
      reads this, users, sq, sq.slots, cq, cq.slots
    {
      Valid() && now == [] && running == {}
    }

    constructor ()
      ensures Resting() && Idle(Here()) && log == []
      ensures fresh(users) && fresh(sq) && fresh(sq.slots) && fresh(cq) && fresh(cq.slots)
    {
      users := new Pool();
      callbacks := map[];
      sq := new Ring(RING_SIZE);
      cq := new Ring(2 * RING_SIZE);
      next, now, done, kernel := [], [], 0, {};
      running, log := {}, [];
    }

    /** The kernel's side of the submission ring: it takes all requests. */
    method TakeAll(ghost live: set<nat>)
      requires Stored() && Balanced(live, Here())
      modifies this`kernel, sq
      ensures Stored() && Balanced(live, Here()) && sq.Contents() == []
    {
      hide Balanced;
      while sq.Count() > 0
        invariant Stored() && Balanced(live, Here())
        decreases sq.Count()
      {
        TakeKeeps(live, Here());
        ghost var was := sq.Contents();
        var found, s := sq.Pop();
        assert was[0] == s && was[1..] == sq.Contents();
        kernel := kernel + {s.user};
      }
    }

    /** The log, the completion ring and the vector for the next round, as they are now. */
    ghost function At(): Mark<F>
      requires cq.Valid()
      reads `log, `next, cq, cq.slots
    {
      Mark(log, cq.Contents(), next)
    }

    lemma AtIs()
      requires cq.Valid()
      ensures At() == Mark(log, cq.Contents(), next)
    {
    }

    /** The kernel's side of the completion ring: it reports on requests it has, as long as there is room. */
    method Post(ghost live: set<nat>, c: Cqe)
      requires Stored() && Balanced(live, Here())
      modifies this`kernel, this`log, cq, cq.slots
      ensures Stored() && Balanced(live, Here())
      ensures Grown(old(At()), At()) && Done(old(At()), At()) == []
    {
      hide Balanced, Remembers, Grown, Done;
      GrownNot(At());
      if c.user in kernel && cq.Count() < cq.slots.Length {
        PostKeeps(live, Here(), c);
        RemembersPosted(log, callbacks, Posted(c));
        cq.Push(c);
        log := log + [Posted(c)];
        GrownOne(old(At()), At(), Posted(c));
        if !c.more {
          kernel := kernel - {c.user};
        }
      }
    }

    /** io_uring_enter: the kernel takes all requests, and completes what it likes. It may block only if something
        can come. */
    method Enter(ghost live: set<nat>, posts: seq<Cqe>, dontBlock: bool)
      requires Stored() && Balanced(live, Here())
      requires dontBlock || sq.Contents() != [] || kernel != {} || cq.Contents() != []
      modifies this`kernel, this`log, sq, cq, cq.slots
      ensures Stored() && Balanced(live, Here()) && sq.Contents() == []
      ensures Grown(old(At()), At()) && Done(old(At()), At()) == []
    {
      hide Balanced, Remembers, Grown, Done, At;
      GrownNot(At());
      TakeAll(live);
      var k := 0;
      while k < |posts|
        invariant Stored() && Balanced(live, Here()) && sq.Contents() == []
        invariant Grown(old(At()), At()) && Done(old(At()), At()) == []
      {
        ghost var before := At();
        Post(live, posts[k]);
        GrownThen(old(At()), before, At());
        k := k + 1;
      }
    }

    /** reactor_alloc_user */
    method Alloc(f: F, ring: bool) returns (user: nat)
      requires Stored()
      modifies this`callbacks, this`log, users
      ensures Stored() && user !in old(users.live) && users.live == old(users.live) + {user}
      ensures callbacks == old(callbacks)[user := f] && log == old(log) + [Began(user, f, ring)]
    {
      hide Remembers;
      user := users.Malloc();
      RemembersStored(log, callbacks, Began(user, f, ring));
      callbacks := callbacks[user := f];
      log := log + [Began(user, f, ring)];
    }

    /** reactor_free_user: what is freed is live, so nothing is freed twice. */
    method Free(user: nat)
      requires Stored() && user in users.live
      modifies this`callbacks, users
      ensures Stored() && users.live == old(users.live) - {user}
    {
      hide Remembers;
      RemembersFewer(log, callbacks, user);
      users.Free(user);
      callbacks := callbacks - {user};
    }

    /** reactor_next */
    method DoNext(f: F) returns (user: nat)
      requires Valid()
      modifies this`callbacks, this`next, this`log, users
      ensures Valid() && next == old(next) + [user]
      ensures user !in old(users.live) && users.live == old(users.live) + {user}
      ensures callbacks == old(callbacks)[user := f]
      ensures Grown(old(At()), At()) && Done(old(At()), At()) == [Began(user, f, false)]
    {
      hide Balanced, Remembers, Grown, Done;
      NextKeepsAll(users.live, Here());
      user := Alloc(f, false);
      next := next + [user];
      GrownOne(old(At()), At(), Began(user, f, false));
    }

    /** Every request to the kernel: a user, and an entry in the submission ring, which is emptied first if it is
        full. */
    method Submit(f: F, cancels: Option<nat>, posts: seq<Cqe>) returns (user: nat)
      requires Valid()
      modifies this`callbacks, this`kernel, this`log, users, sq, sq.slots, cq, cq.slots
      ensures Valid() && sq.Contents() != [] && sq.Contents()[|sq.Contents()| - 1] == Sqe(user, cancels)
      ensures old(sq.Count()) < RING_SIZE ==>
                sq.Contents() == old(sq.Contents()) + [Sqe(user, cancels)] && kernel == old(kernel)
      ensures user !in old(users.live) && users.live == old(users.live) + {user}
      ensures callbacks == old(callbacks)[user := f]
      ensures Grown(old(At()), At()) && Done(old(At()), At()) == [Began(user, f, true)]
    {
      hide Balanced, Remembers, Grown, Done;
      ghost var live := users.live;
      user := Alloc(f, true);
      GrownOne(old(At()), At(), Began(user, f, true));
      hide At;
      if sq.Count() == RING_SIZE {
        ghost var before := At();
        Enter(live, posts, true);
        GrownThen(old(At()), before, At());
      }
      SubmitKeeps(live, Here(), Sqe(user, cancels));
      sq.Push(Sqe(user, cancels));
    }

    /** The ids of reactor_next carry a mark; they are in one of the two vectors. */
    ghost predicate IsNext(user: nat)
      requires done <= |now|
      reads this
    {
      user in next || user in now[done..]
    }

    /**
     * reactor_cancel on an operation that is not finished: from now on its memory holds another callback. An
     * operation of the kernel is also asked to end; nothing is freed, which is left to its completion.
     */
    method Cancel(user: nat, notRing: bool, f: F, none: F, posts: seq<Cqe>)
      requires Valid() && user in users.live && notRing == IsNext(user)
      modifies this`callbacks, this`kernel, this`log, users, sq, sq.slots, cq, cq.slots
      ensures Valid() && user in users.live && callbacks[user] == f
      ensures Grown(old(At()), At())
      ensures notRing ==> users.live == old(users.live) && callbacks == old(callbacks)[user := f]
                          && sq.Contents() == old(sq.Contents()) && kernel == old(kernel)
                          && cq.Contents() == old(cq.Contents())
                          && Done(old(At()), At()) == [Put(user, f)]
      ensures !notRing ==> exists u :: u !in old(users.live) && users.live == old(users.live) + {u}
                                       && sq.Contents() != []
                                       && sq.Contents()[|sq.Contents()| - 1] == Sqe(u, Some(user))
                                       && callbacks == old(callbacks)[user := f][u := none]
                                       && Done(old(At()), At()) == [Put(user, f), Began(u, none, true)]
    {
      hide Balanced, Remembers, Grown, Done;
      RemembersStored(log, callbacks, Put(user, f));
      callbacks := callbacks[user := f];
      log := log + [Put(user, f)];
      GrownOne(old(At()), At(), Put(user, f));
      hide At;
      if !notRing {
        ghost var before := At();
        var u := Submit(none, Some(user), posts);
        GrownThen(old(At()), before, At());
      }
    }

    /** One thing a callback does. Only unfinished operations are cancelled. */
    method PerformOne(op: Op<F>)
      requires Valid()
      modifies this`callbacks, this`next, this`kernel, this`log, users, sq, sq.slots, cq, cq.slots
      ensures Valid() && old(users.live) <= users.live
      ensures Grown(old(At()), At()) && DoesOne(op, Done(old(At()), At()))
      ensures op.CancelNext? ==>
                (Done(old(At()), At()) == [] <==> op.user !in old(next) && op.user !in old(now[done..]))
      ensures op.CancelRing? ==>
                (Done(old(At()), At()) == [] <==>
                 op.user !in old(callbacks) || op.user in old(next) || op.user in old(now[done..]))
    {
      hide Balanced, Remembers, Grown, Done, At, DoesOne;
      match op {
        case Next(f) =>
          var u := DoNext(f);
          DoesNext(u, f);
        case Start(f, posts) =>
          var u := Submit(f, None, posts);
          DoesStart(u, f, posts);
        case CancelNext(user, f) =>
          DoesCancel(op, 0);
          if user in next || user in now[done..] {
            NextIsLive(users.live, Here(), user);
            Cancel(user, true, f, f, []);
          } else {
            GrownNot(At());
          }
        case CancelRing(user, f, none, posts) =>
          if user in callbacks && user !in next && user !in now[done..] {
            Cancel(user, false, f, none, posts);
            forall u ensures DoesOne(op, [Put(user, f), Began(u, none, true)]) {
              DoesCancel(op, u);
            }
          } else {
            DoesCancel(op, 0);
            GrownNot(At());
          }
      }
    }

    lemma RingsValid()
      requires Valid()
      ensures sq.Valid() && cq.Valid()
    {
    }

    /** What a callback does, one thing after the other. */
    method Perform(ops: seq<Op<F>>)
      requires Valid()
      modifies this`callbacks, this`next, this`kernel, this`log, users, sq, sq.slots, cq, cq.slots
      ensures Valid() && old(users.live) <= users.live
      ensures cq.Valid() && Grown(old(At()), At()) && Does(ops, Done(old(At()), At()))
      ensures ops == [] ==> users.live == old(users.live) && cq.Contents() == old(cq.Contents())
    {
      hide *;
      RingsValid();
      GrownNot(At());
      DoesNothing<F>();
      var k := 0;
      while k < |ops|
        invariant 0 <= k <= |ops| && Valid() && cq.Valid() && old(users.live) <= users.live
        invariant Grown(old(At()), At()) && Does(ops[..k], Done(old(At()), At()))
        invariant k == 0 ==> users.live == old(users.live) && cq.Contents() == old(cq.Contents())
      {
        ghost var before := At();
        PerformOne(ops[k]);
        RingsValid();
        GrownThen(old(At()), before, At());
        DoesMore(ops[..k], Done(old(At()), before), ops[k], Done(before, At()));
        assert ops[..k] + [ops[k]] == ops[..k + 1];
        k := k + 1;
      }
      assert ops[..k] == ops;
    }

    /**
     * One entry of a vector: the callback its user holds is called, which does what it does, then the user is freed,
     * and no other.
     */
    method RunEntry(ops: seq<Op<F>>)
      requires Valid() && done < |now| && now[done] in callbacks
      modifies this`callbacks, this`next, this`kernel, sq, sq.slots, cq, cq.slots, this`log, this`done, users
      ensures Valid() && done == old(done) + 1
      ensures Grown(old(At()), At())
      ensures CallThen(Called(now[old(done)], old(callbacks)[now[old(done)]], 0, false), ops, Done(old(At()), At()))
      ensures now[old(done)] !in users.live && old(users.live) - {now[old(done)]} <= users.live
    {
      hide Balanced, Remembers, Grown, Done, CallThen, At;
      var user := now[done];
      RunKeeps(users.live, Here());
      CallAndPerform(Called(user, callbacks[user], 0, false), ops);
      RunKeeps(users.live, Here());
      Free(user);
      done := done + 1;
    }

    /** A callback is called, and does what it does. */
    method CallAndPerform(ghost call: Entry<F>, ops: seq<Op<F>>)
      requires Valid() && call.Called? && call.user in callbacks && call.f == callbacks[call.user]
      modifies this`callbacks, this`next, this`kernel, this`log, users, sq, sq.slots, cq, cq.slots
      ensures Valid() && old(users.live) <= users.live
      ensures ops == [] ==> users.live == old(users.live) && cq.Contents() == old(cq.Contents())
      ensures Grown(old(At()), At()) && CallThen(call, ops, Done(old(At()), At()))
    {
      hide Balanced, Remembers, Grown, Done, Does, At;
      Log(call);
      ghost var before := At();
      Perform(ops);
      GrownThen(old(At()), before, At());
      assert ([call] + Done(before, At()))[1..] == Done(before, At());
    }

    ghost method Log(call: Entry<F>)
      requires Valid() && call.Called? && call.user in callbacks && call.f == callbacks[call.user]
      modifies this`log
      ensures Valid() && Grown(old(At()), At()) && Done(old(At()), At()) == [call]
    {
      hide Balanced, Remembers, Grown, Done;
      RemembersPosted(log, callbacks, call);
      log := log + [call];
      GrownOne(old(At()), At(), call);
    }

    /**
     * The oldest completion: the callback that its user holds is called unless it is a notification, and the user is
     * freed exactly if no more completions are to come; no other user is.
     */
    method HandleCompletion(ops: seq<Op<F>>) returns (c: Cqe)
      requires Valid() && cq.Contents() != [] && running == {} && cq.Contents()[0].user in callbacks
      modifies this`callbacks, this`next, this`kernel, this`log, this`running, users, sq, sq.slots, cq, cq.slots
      ensures Valid() && running == {} && c == old(cq.Contents())[0] && c.user in old(callbacks)
      ensures Grown(old(At()).(ring := old(cq.Contents())[1..]), At())
      ensures c.notif ==> Done(old(At()), At()) == []
      ensures !c.notif ==> CallThen(Called(c.user, old(callbacks)[c.user], c.res, true), ops, Done(old(At()), At()))
      ensures c.user in users.live <==> c.more
      ensures old(users.live) - {c.user} <= users.live
      ensures ops == [] || c.notif ==>
                && users.live == old(users.live) - (if c.more then {} else {c.user})
                && cq.Contents() == old(cq.Contents())[1..]
    {
      hide Balanced, Remembers, Grown, CallThen, At, Done;
      AtIs();
      c := TakeCompletion();
      AtIs();
      GrownNot(At());
      ghost var before := At();
      if !c.notif {
        CallAndPerform(Called(c.user, callbacks[c.user], c.res, true), ops);
      }
      SameLog(old(At()), before, At());
      if !c.more {
        Finish(c.user);
      }
    }

    method Finish(user: nat)
      requires Valid() && running == {user}
      modifies this`callbacks, this`running, users
      ensures Valid() && running == {} && user in old(users.live) && users.live == old(users.live) - {user}
    {
      hide Balanced, Remembers;
      FinishKeeps(users.live, Here(), user);
      Free(user);
      running := {};
    }

    /** reactor_ring_cqe, when there is a completion. */
    method TakeCompletion() returns (c: Cqe)
      requires Valid() && cq.Contents() != [] && running == {}
      modifies this`running, cq
      ensures Valid() && c == old(cq.Contents())[0] && cq.Contents() == old(cq.Contents())[1..]
      ensures running == (if c.more then {} else {c.user}) && c.user in users.live
    {
      hide Balanced, Remembers;
      PopKeeps(users.live, Here());
      ghost var was := cq.Contents();
      var found;
      found, c := cq.Pop();
      assert was[0] == c && was[1..] == cq.Contents();
      running := if c.more then {} else {c.user};
    }

    /**
     * reactor_loop_once. The entries of the vector are called in order, then, in the order of the ring, one callback
     * for each completion that was there or entered the ring during the round and is not a notification; each callee
     * does what its callback does, and nothing else is done. No completion is left over.
     */
    method LoopOnce(round: Round<F>)
      requires Resting()
      modifies this, users, sq, sq.slots, cq, cq.slots
      ensures Resting() && cq.Contents() == [] && RoundDone(old(At()), At(), round.reactions)
    {
      hide Balanced, Holders, Remembers, Grown, HalfDone, Answered, Arrived, RoundDone;
      var later := RunCurrent(round.reactions);
      ghost var before := At();
      var waiting := |next|;
      NextIsLiveAll(users.live, Here());
      if users.Size() > waiting {
        SomethingComes(users.live, Here());
        Complete(round.posts, waiting != 0, later);
      } else {
        OnlyNext(users.live, Here());
        NothingDue(before, later);
      }
      RoundServed(old(At()), before, At(), round.reactions);
    }

    /** The first half of a round: the vectors change places, and the current one is run. */
    method RunCurrent(reactions: seq<seq<Op<F>>>) returns (later: seq<seq<Op<F>>>)
      requires Resting()
      modifies this, users, sq, sq.slots, cq, cq.slots
      ensures Resting() && later == Later(reactions, |old(next)|)
      ensures HalfDone(old(At()), At(), reactions)
    {
      hide Balanced, Holders, Remembers, Grown, Done, Served, VectorDues, HalfDone;
      later := reactions;
      if |next| > 0 {
        SwitchKeeps(users.live, Here());
        now, next, done := next, [], 0;
        later := RunVector(reactions);
        HalfRun(old(At()), At(), reactions);
        assert now[done..] == [];
        now, done := [], 0;
      } else {
        HalfEmpty(At(), reactions);
      }
    }

    /** reactor_ring_update, and all completions there are. */
    method Complete(posts: seq<Cqe>, dontBlock: bool, reactions: seq<seq<Op<F>>>)
      requires Resting() && (dontBlock || sq.Contents() != [] || kernel != {} || cq.Contents() != [])
      modifies this, users, sq, sq.slots, cq, cq.slots
      ensures Resting() && cq.Contents() == []
      ensures Answered(old(At()), At(), |Arrived(old(At()), At())|, reactions)
    {
      hide Balanced, Remembers, Grown, Answered, Done, Arrived, At, CallThen;
      Enter(users.live, posts, dontBlock);
      NothingAnswered(old(At()), At(), reactions);
      ghost var n := 0;
      var rest := reactions;
      while cq.Count() > 0
        invariant Resting() && rest == Later(reactions, n)
        invariant Answered(old(At()), At(), n, reactions)
        decreases |rest|, cq.Count()
      {
        var ops := if rest == [] then [] else rest[0];
        rest := if rest == [] then [] else rest[1..];
        CompleteOne(ops, old(At()), n, reactions);
        n := n + 1;
      }
      AtIs();
      AllAnswered(old(At()), At(), n, reactions);
    }

    /** The next completion, after n of them. */
    method CompleteOne(ops: seq<Op<F>>, ghost start: Mark<F>, ghost n: nat, ghost reactions: seq<seq<Op<F>>>)
      requires Resting() && cq.Count() > 0 && Answered(start, At(), n, reactions) && ops == OpsOf(reactions, n)
      modifies this, users, sq, sq.slots, cq, cq.slots
      ensures Resting() && Answered(start, At(), n + 1, reactions)
      ensures ops == [] ==> cq.Count() < old(cq.Count())
    {
      hide Balanced, Remembers, Grown, Answered, Done, At, CallThen;
      PopKeeps(users.live, Here());
      AtIs();
      ghost var f := callbacks[cq.Contents()[0].user];
      var c := HandleCompletion(ops);
      AnsweredOne(start, old(At()), At(), n, reactions, c, f, ops);
    }

    /** All entries of the vector, in order, each once. */
    method RunVector(reactions: seq<seq<Op<F>>>) returns (rest: seq<seq<Op<F>>>)
      requires Valid() && done == 0 && running == {}
      modifies this`callbacks, this`next, this`kernel, sq, sq.slots, cq, cq.slots, this`log, this`done, users
      ensures Valid() && done == |now| && rest == Later(reactions, |now|)
      ensures Grown(old(At()), At())
      ensures Served(VectorDues(now), reactions, Done(old(At()), At()))
    {
      hide Balanced, Remembers, Grown, Done, At, Served, VectorDues, CallThen;
      rest := reactions;
      GrownNot(At());
      NothingRun(reactions);
      assert now[..0] == [];
      while done < |now|
        invariant Valid() && done <= |now|
        invariant rest == Later(reactions, done)
        invariant Grown(old(At()), At())
        invariant Served(VectorDues(now[..done]), reactions, Done(old(At()), At()))
        decreases |now| - done
      {
        RunKeeps(users.live, Here());
        ghost var before := At();
        ghost var f := callbacks[now[done]];
        var ops := if rest == [] then [] else rest[0];
        rest := if rest == [] then [] else rest[1..];
        RunEntry(ops);
        GrownThen(old(At()), before, At());
        VectorNext(now, done - 1, reactions, Done(old(At()), before), f, ops, Done(before, At()));
      }
      assert now[..done] == now;
    }

    /**
     * reactor_loop, for as long as the world goes on: it ends early exactly if nothing is outstanding. Whatever the
     * rounds bring, each operation of reactor_next is called in the order of the starts, and each completion that
     * entered the ring and is no notification is called with its result, in the order of the ring.
     */
    method Loop(rounds: seq<Round<F>>) returns (n: nat)
      requires Resting()
      modifies this, users, sq, sq.slots, cq, cq.slots
      ensures Resting() && n <= |rounds|
      ensures n < |rounds| ==> Idle(Here())
      ensures users.Size() == 0 <==> Idle(Here())
      ensures AllCalled(old(At()), At())
    {
      hide Balanced, Idle, Remembers, AllCalled, At, RoundDone;
      n := 0;
      CalledNot(At());
      while n < |rounds| && users.Size() > 0
        invariant n <= |rounds| && Resting() && AllCalled(old(At()), At())
      {
        ghost var before := At();
        LoopOnce(rounds[n]);
        CalledRound(old(At()), before, At(), rounds[n].reactions);
        n := n + 1;
      }
      NobodyLeft(users.live, Here());
    }
  }

  lemma NextKeepsAll(live: set<nat>, p: Places)
    requires Balanced(live, p)
    ensures forall u :: u !in live ==> Balanced(live + {u}, p.(next := p.next + [u]))
  {
    hide Balanced;
    forall u | u !in live ensures Balanced(live + {u}, p.(next := p.next + [u])) {
      NextKeeps(live, p, u);
    }
  }

  lemma NextIsLive(live: set<nat>, p: Places, u: nat)
    requires Balanced(live, p) && (u in p.next || u in p.now)
    ensures u in live
  {
    OnePlace(live, p, u);
    assert Holders(p)[u] >= multiset(p.next)[u] + multiset(p.now)[u];
  }

  lemma NextIsLiveAll(live: set<nat>, p: Places)
    requires Balanced(live, p)
    ensures |p.next| <= |live|
  {
    assert |multiset(live)| == |live| && |multiset(p.next)| == |p.next|;
    hide Finals;
    assert |Holders(p)| >= |p.next|;
  }
}
