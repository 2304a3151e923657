/** The event loop (reactor.c): the places a started operation can be in, and how it moves between them. */
module OperationPlaces {
  import opened Common

  /** A request to the kernel; an async cancel names the user of the request it is about. */
  datatype Sqe = Sqe(user: nat, cancels: Option<nat>)

  /** A completion. With the MORE flag others will follow for the same user; a notification calls nobody. */
  datatype Cqe = Cqe(user: nat, res: int, more: bool, notif: bool)

  function Users(sq: seq<Sqe>): (r: seq<nat>)
    ensures |r| == |sq| && forall k :: 0 <= k < |sq| ==> r[k] == sq[k].user
  {
    seq(|sq|, k requires 0 <= k < |sq| => sq[k].user)
  }

  /** The users whose last completion is in the ring. */
  function Finals(cq: seq<Cqe>): seq<nat> {
    if cq == [] then []
    else Finals(cq[..|cq| - 1]) + (if cq[|cq| - 1].more then [] else [cq[|cq| - 1].user])
  }

  lemma {:induction false} FinalsSplit(a: seq<Cqe>, b: seq<Cqe>)
    ensures Finals(a + b) == Finals(a) + Finals(b)
  {
    if b == [] {
      assert a + b == a;
    } else {
      FinalsSplit(a, b[..|b| - 1]);
      assert (a + b)[..|a + b| - 1] == a + b[..|b| - 1];
    }
  }

  lemma {:induction false} FinalIsThere(cq: seq<Cqe>, u: nat)
    ensures u in Finals(cq) <==> exists k :: 0 <= k < |cq| && cq[k].user == u && !cq[k].more
  {
    if cq != [] {
      var n := |cq| - 1;
      FinalIsThere(cq[..n], u);
      if u in Finals(cq[..n]) {
        var k :| 0 <= k < n && cq[..n][k].user == u && !cq[..n][k].more;
        assert cq[k].user == u && !cq[k].more;
      }
      if k :| 0 <= k < |cq| && cq[k].user == u && !cq[k].more {
        if k < n {
          assert cq[..n][k].user == u && !cq[..n][k].more;
        }
      }
    }
  }

  /** Nothing follows a user's last completion. */
  ghost predicate LastIsLast(cq: seq<Cqe>) {
    forall i, j :: 0 <= i < j < |cq| && !cq[i].more ==> cq[j].user != cq[i].user
  }

  /**
   * `next` is the vector for the next round, `now` the part of the other one that is still to be run, `sq` and
   * `cq` the two rings, `kernel` the requests the kernel works on, and `running` the user whose last completion
   * is being handled.
   */
  datatype Places = Places(next: seq<nat>, now: seq<nat>, sq: seq<Sqe>, kernel: set<nat>, cq: seq<Cqe>,
                           running: set<nat>)

  ghost function Holders(p: Places): multiset<nat> {
    multiset(p.next) + multiset(p.now) + multiset(Users(p.sq)) + multiset(p.kernel) + multiset(Finals(p.cq))
    + multiset(p.running)
  }

  /** Nothing follows a user's last completion, and a user that more is to come for is still being worked on. */
  ghost predicate Followed(kernel: set<nat>, cq: seq<Cqe>) {
    && LastIsLast(cq)
    && (forall k :: 0 <= k < |cq| ==> cq[k].user in kernel || cq[k].user in Finals(cq[k..]))
  }

  lemma FollowedPost(kernel: set<nat>, cq: seq<Cqe>, c: Cqe)
    requires Followed(kernel, cq) && c.user in kernel && c.user !in Finals(cq)
    ensures Followed(if c.more then kernel else kernel - {c.user}, cq + [c])
  {
    var more, rest := cq + [c], if c.more then kernel else kernel - {c.user};
    FinalIsThere(cq, c.user);
    assert LastIsLast(more);
    forall k | 0 <= k < |more| ensures more[k].user in rest || more[k].user in Finals(more[k..]) {
      LastOne(c);
      if k < |cq| {
        assert more[k..] == cq[k..] + [c];
        FinalsSplit(cq[k..], [c]);
      } else {
        assert more[k..] == [c];
      }
    }
  }

  lemma FollowedMore(kernel: set<nat>, cq: seq<Cqe>, u: nat)
    requires Followed(kernel, cq)
    ensures Followed(kernel + {u}, cq)
  {
  }

  lemma LastOne(c: Cqe)
    ensures Finals([c]) == if c.more then [] else [c.user]
  {
    assert [c][..0] == [];
  }

  lemma FollowedPop(kernel: set<nat>, cq: seq<Cqe>)
    requires Followed(kernel, cq) && cq != []
    ensures Followed(kernel, cq[1..])
    ensures cq[0].user in kernel || cq[0].user in Finals(cq)
  {
    assert cq[0..] == cq;
    var rest := cq[1..];
    forall k | 0 <= k < |rest| ensures rest[k].user in kernel || rest[k].user in Finals(rest[k..]) {
      assert rest[k..] == cq[k + 1..] && rest[k] == cq[k + 1];
    }
  }

  lemma Less<T>(a: multiset<T>, b: multiset<T>, m: multiset<T>)
    requires a + m == b + m
    ensures a == b
  {
    assert a == (a + m) - m && b == (b + m) - m;
  }

  /** The live users are, each exactly once, in one of the places; completions only come for live users. */
  ghost predicate Balanced(live: set<nat>, p: Places) {
    && multiset(live) == Holders(p)
    && Followed(p.kernel, p.cq)
  }

  ghost predicate Idle(p: Places) {
    p.next == [] && p.now == [] && p.sq == [] && p.kernel == {} && p.cq == [] && p.running == {}
  }

  /** Nothing is live exactly when every place is empty. */
  lemma NobodyLeft(live: set<nat>, p: Places)
    requires Balanced(live, p)
    ensures live == {} <==> Idle(p)
  {
    if live == {} {
      assert |Holders(p)| == 0;
      assert |p.next| == 0 && |p.now| == 0 && |Users(p.sq)| == 0 && |p.kernel| == 0 && |p.running| == 0;
      assert |Finals(p.cq)| == 0;
      if p.cq != [] {
        FollowedPop(p.kernel, p.cq);
      }
    } else {
      var u :| u in live;
      assert u in multiset(live);
    }
  }

  /** A user is in no more than one place, and only live users are in one. */
  lemma OnePlace(live: set<nat>, p: Places, u: nat)
    requires Balanced(live, p)
    ensures u in live <==> Holders(p)[u] == 1
    ensures u !in live <==> Holders(p)[u] == 0
  {
    assert multiset(live)[u] == if u in live then 1 else 0;
  }

  lemma OneMore(live: set<nat>, u: nat)
    requires u !in live
    ensures multiset(live + {u}) == multiset(live) + multiset{u}
  {
  }

  lemma OneLess(live: set<nat>, u: nat)
    requires u in live
    ensures multiset(live) == multiset(live - {u}) + multiset{u}
  {
  }

  lemma NextKeeps(live: set<nat>, p: Places, u: nat)
    requires Balanced(live, p) && u !in live
    ensures Balanced(live + {u}, p.(next := p.next + [u]))
  {
    hide Finals, Followed;
    OneMore(live, u);
  }

  lemma SubmitKeeps(live: set<nat>, p: Places, s: Sqe)
    requires Balanced(live, p) && s.user !in live
    ensures Balanced(live + {s.user}, p.(sq := p.sq + [s]))
  {
    hide Finals, Followed;
    OneMore(live, s.user);
    assert Users(p.sq + [s]) == Users(p.sq) + [s.user];
  }

  /** The kernel takes the oldest request. */
  lemma TakeKeeps(live: set<nat>, p: Places)
    requires Balanced(live, p) && p.sq != []
    ensures Balanced(live, p.(sq := p.sq[1..], kernel := p.kernel + {p.sq[0].user}))
  {
    hide Finals, Followed;
    var u, rest := p.sq[0].user, Users(p.sq[1..]);
    FollowedMore(p.kernel, p.cq, u);
    OnePlace(live, p, u);
    assert Users(p.sq) == [u] + rest;
    assert multiset(Users(p.sq)) == multiset{u} + multiset(rest);
    assert u !in p.kernel by {
      assert Holders(p)[u] >= multiset{u}[u] + multiset(p.kernel)[u];
    }
    OneMore(p.kernel, u);
  }

  /** The kernel reports something about a request it works on, which it keeps when more is to follow. */
  lemma PostKeeps(live: set<nat>, p: Places, c: Cqe)
    requires Balanced(live, p) && c.user in p.kernel
    ensures Balanced(live, p.(cq := p.cq + [c], kernel := if c.more then p.kernel else p.kernel - {c.user}))
  {
    var u := c.user;
    FinalsSplit(p.cq, [c]);
    LastOne(c);
    OnePlace(live, p, u);
    assert u !in Finals(p.cq) by {
      assert Holders(p)[u] >= multiset(p.kernel)[u] + multiset(Finals(p.cq))[u];
    }
    FollowedPost(p.kernel, p.cq, c);
    OneLess(p.kernel, u);
    hide Finals, Followed;
  }

  /** The loop takes the oldest completion; if it is the last for its user, that user now belongs to the loop. */
  lemma PopKeeps(live: set<nat>, p: Places)
    requires Balanced(live, p) && p.cq != [] && p.running == {}
    ensures p.cq[0].user in live
    ensures Balanced(live, p.(cq := p.cq[1..], running := if p.cq[0].more then {} else {p.cq[0].user}))
  {
    var c := p.cq[0];
    assert p.cq == [c] + p.cq[1..];
    FinalsSplit([c], p.cq[1..]);
    LastOne(c);
    FollowedPop(p.kernel, p.cq);
    hide Finals, Followed;
    OnePlace(live, p, c.user);
  }

  /** The user of a finished operation is freed. */
  lemma FinishKeeps(live: set<nat>, p: Places, u: nat)
    requires Balanced(live, p) && p.running == {u}
    ensures u in live && Balanced(live - {u}, p.(running := {}))
  {
    hide Finals, Followed;
    OnePlace(live, p, u);
    assert multiset(p.running) == multiset{u};
    OneLess(live, u);
    Less(multiset(live - {u}), Holders(p.(running := {})), multiset{u});
  }

  lemma RunKeeps(live: set<nat>, p: Places)
    requires Balanced(live, p) && p.now != []
    ensures p.now[0] in live && Balanced(live - {p.now[0]}, p.(now := p.now[1..]))
  {
    hide Finals, Followed;
    var u := p.now[0];
    assert p.now == [u] + p.now[1..];
    OnePlace(live, p, u);
    assert multiset(p.now) == multiset{u} + multiset(p.now[1..]);
    OneLess(live, u);
    Less(multiset(live - {u}), Holders(p.(now := p.now[1..])), multiset{u});
  }

  /** A new round: the two vectors change places. */
  lemma SwitchKeeps(live: set<nat>, p: Places)
    requires Balanced(live, p) && p.now == []
    ensures Balanced(live, p.(now := p.next, next := []))
  {
    hide Finals, Followed;
  }

  /** If all live users wait for the next round, the kernel and the rings have nothing. */
  lemma OnlyNext(live: set<nat>, p: Places)
    requires Balanced(live, p) && |live| <= |p.next|
    ensures p.cq == [] && p.sq == [] && p.kernel == {}
  {
    assert |multiset(live)| == |live| && |multiset(p.next)| == |p.next|;
    assert |Holders(p)| >= |p.next| + |Users(p.sq)| + |p.kernel| + |Finals(p.cq)|;
    if p.cq != [] {
      FollowedPop(p.kernel, p.cq);
    }
  }

  /** If more users are live than wait for the next round, the kernel or a ring has one of the others. */
  lemma SomethingComes(live: set<nat>, p: Places)
    requires Balanced(live, p) && p.now == [] && p.running == {}
    requires |live| > |p.next|
    ensures p.sq != [] || p.kernel != {} || p.cq != []
  {
    assert |multiset(live)| == |live| && |multiset(p.next)| == |p.next|;
    assert |Holders(p)| == |p.next| + |Users(p.sq)| + |p.kernel| + |Finals(p.cq)|;
  }
}
