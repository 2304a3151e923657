/** Whole histories of a table, against a mathematical map in which the first insert of a key wins. */
module MapHistory {
  import opened Words
  import opened HashMap

  datatype Op<K, V> = Insert(key: K, value: V) | Erase(key: K) | Reserve(size: nat) | Clear

  function Apply<K, V>(m: map<K, V>, op: Op<K, V>): map<K, V> {
    match op
    case Insert(k, v) => if k in m then m else m[k := v]
    case Erase(k) => m - {k}
    case Reserve(_) => m
    case Clear => map[]
  }

  function Meaning<K, V>(ops: seq<Op<K, V>>): (m: map<K, V>)
    ensures |m| <= |ops|
  {
    if ops == [] then map[] else Apply(Meaning(ops[..|ops| - 1]), ops[|ops| - 1])
  }

  /** The elements a history hands to the table. */
  ghost function Given<K, V>(ops: seq<Op<K, V>>): multiset<(K, V)> {
    if ops == [] then multiset{}
    else
      var earlier := Given(ops[..|ops| - 1]);
      match ops[|ops| - 1]
      case Insert(k, v) => earlier + multiset{(k, v)}
      case _ => earlier
  }

  ghost predicate Fits<K, V>(ops: seq<Op<K, V>>) {
    && 2 * |ops| <= WORD_TOP
    && forall i :: 0 <= i < |ops| && ops[i].Reserve? ==> 2 * ops[i].size <= WORD_TOP
  }

  /** The elements a map stores, as a multiset. */
  ghost function Stored<K, V>(m: map<K, V>): multiset<(K, V)> {
    multiset(Pairs(m))
  }

  ghost function Pairs<K, V>(m: map<K, V>): set<(K, V)> {
    set k | k in m :: (k, m[k])
  }

  ghost function Offered<K, V>(op: Op<K, V>): multiset<(K, V)> {
    if op.Insert? then multiset{(op.key, op.value)} else multiset{}
  }

  /** Any history from construction leaves the mathematical map, and every element ever handed in is
      either still stored or was released exactly once. */
  method Replay<K(==), V(==)>(hash: K -> nat, ops: seq<Op<K, V>>) returns (table: Map<K, V>, released: seq<(K, V)>)
    requires Fits(ops)
    ensures table.Valid() && table.Contents() == Meaning(ops)
    ensures Given(ops) == multiset(released) + Stored(Meaning(ops))
  {
    table := new Map(hash);
    released := [];
    for i := 0 to |ops|
      invariant fresh(table) && fresh(table.elements) && table.Valid() && table.Contents() == Meaning(ops[..i])
      invariant Given(ops[..i]) == multiset(released) + Stored(Meaning(ops[..i]))
    {
      CountOf(table.elements[..], table.place);
      Latest(ops, i);
      var more := Step(table, ops[i]);
      Ledger(Given(ops[..i]), Offered(ops[i]), Stored(Meaning(ops[..i])), Stored(Meaning(ops[..i + 1])), released,
             more);
      released := released + more;
    }
    assert ops[..|ops|] == ops;
  }

  lemma Ledger<T>(given: multiset<T>, offered: multiset<T>, before: multiset<T>, after: multiset<T>,
                  released: seq<T>, more: seq<T>)
    requires given == multiset(released) + before && before + offered == multiset(more) + after
    ensures given + offered == multiset(released + more) + after
  {
    assert given + offered == multiset(released) + (before + offered);
  }

  lemma Latest<K, V>(ops: seq<Op<K, V>>, i: nat)
    requires i < |ops|
    ensures Meaning(ops[..i + 1]) == Apply(Meaning(ops[..i]), ops[i])
    ensures Given(ops[..i + 1]) == Given(ops[..i]) + Offered(ops[i])
  {
    assert ops[..i + 1][..i] == ops[..i];
  }

  method Step<K(==), V(==)>(table: Map<K, V>, op: Op<K, V>) returns (released: seq<(K, V)>)
    requires table.Valid()
    requires op.Insert? ==> 2 * (table.count + 1) <= WORD_TOP
    requires op.Reserve? ==> 2 * op.size <= WORD_TOP
    modifies table, table.elements
    ensures table.Valid() && (table.elements == old(table.elements) || fresh(table.elements))
    ensures table.Contents() == Apply(old(table.Contents()), op)
    ensures Stored(old(table.Contents())) + Offered(op) == multiset(released) + Stored(Apply(old(table.Contents()), op))
  {
    hide Indexed, Unbroken, Stored;
    released := [];
    ghost var m := table.Contents();
    NothingStored<K, V>();
    match op {
      case Insert(k, v) =>
        var refused := table.Insert(k, v);
        if refused.Some? {
          released := [refused.value];
        } else {
          StoredInsert(m, k, v);
        }
      case Erase(k) =>
        var gone := table.Erase(k);
        if gone.Some? {
          released := [gone.value];
          StoredErase(m, k);
        } else {
          assert m - {k} == m;
        }
      case Reserve(n) =>
        table.Reserve(n);
      case Clear =>
        CountOf(table.elements[..], table.place);
        released := table.Clear();
        StoredAll(m, released);
    }
  }

  lemma InPairs<K, V>(m: map<K, V>, p: (K, V))
    ensures p in Pairs(m) <==> p.0 in m && m[p.0] == p.1
  {
    if p.0 in m && m[p.0] == p.1 {
      assert p == (p.0, m[p.0]);
    }
  }

  lemma NothingStored<K, V>()
    ensures Stored<K, V>(map[]) == multiset{}
  {
    assert Pairs<K, V>(map[]) == {};
  }

  lemma StoredInsert<K, V>(m: map<K, V>, k: K, v: V)
    requires k !in m
    ensures Stored(m[k := v]) == Stored(m) + multiset{(k, v)}
  {
    forall p ensures p in Pairs(m[k := v]) <==> p in Pairs(m) + {(k, v)} {
      InPairs(m, p);
      InPairs(m[k := v], p);
    }
    assert Pairs(m[k := v]) == Pairs(m) + {(k, v)};
    InPairs(m, (k, v));
  }

  lemma StoredErase<K, V>(m: map<K, V>, k: K)
    requires k in m
    ensures Stored(m) == Stored(m - {k}) + multiset{(k, m[k])}
  {
    StoredInsert(m - {k}, k, m[k]);
    assert (m - {k})[k := m[k]] == m;
  }

  lemma {:induction false} StoredAll<K, V>(m: map<K, V>, all: seq<(K, V)>)
    requires forall k, v :: (k, v) in all <==> k in m && m[k] == v
    requires forall i, j :: 0 <= i < j < |all| ==> all[i].0 != all[j].0
    ensures multiset(all) == Stored(m)
  {
    assert forall k :: k in m ==> (k, m[k]) in all;
    if all == [] {
      assert m == map[];
    } else {
      var (k, v) := all[|all| - 1];
      var rest := all[..|all| - 1];
      assert all == rest + [(k, v)];
      assert (k, v) in all;
      forall x, y ensures (x, y) in rest <==> x in m - {k} && m[x] == y {
        assert (x, y) in all <==> (x, y) in rest || (x, y) == (k, v);
        if (x, y) in rest {
          var i :| 0 <= i < |rest| && rest[i] == (x, y);
          assert all[i].0 != all[|all| - 1].0;
        }
      }
      StoredAll(m - {k}, rest);
      StoredErase(m, k);
    }
  }
}
