/** Object keys in encoding order: value_object_keys and its comparison. */
module JsonKeys {
  import opened Utf8
  import opened JsonValue

  /** memcmp of the first n bytes. */
  function Memcmp(a: Bytes, b: Bytes, n: nat): int
    requires n <= |a| && n <= |b|
  {
    if n == 0 then 0
    else if a[0] != b[0] then a[0] as int - b[0] as int
    else Memcmp(a[1..], b[1..], n - 1)
  }

  /** value_object_keys_compare; it never answers 0. */
  function Compare(a: Bytes, b: Bytes): int {
    var r := Memcmp(a, b, if |a| < |b| then |a| else |b|);
    if r != 0 then r else if |a| > |b| then 1 else -1
  }

  predicate Less(a: Bytes, b: Bytes) {
    a != b && Compare(a, b) < 0
  }

  /** The dictionary order: a is a proper prefix, or smaller at the first difference. */
  ghost predicate Dictionary(a: Bytes, b: Bytes) {
    exists n: nat :: n <= |a| && n < |b| && a[..n] == b[..n] && (n == |a| || a[n] < b[n])
  }

  lemma {:induction false} CompareIsDictionary(a: Bytes, b: Bytes)
    ensures Less(a, b) <==> Dictionary(a, b)
  {
    if a == [] || b == [] {
      if a == [] && b != [] {
        assert a[..0] == b[..0];
      }
    } else if a[0] != b[0] {
      if a[0] < b[0] {
        assert a[..0] == b[..0];
      }
    } else {
      CompareIsDictionary(a[1..], b[1..]);
      EqualHeads(a, b);
      EqualHeadsDictionary(a, b);
    }
  }

  lemma EqualHeads(a: Bytes, b: Bytes)
    requires a != [] && b != [] && a[0] == b[0]
    ensures Less(a, b) <==> Less(a[1..], b[1..])
  {
    assert a == [a[0]] + a[1..] && b == [b[0]] + b[1..];
  }

  lemma EqualHeadsDictionary(a: Bytes, b: Bytes)
    requires a != [] && b != [] && a[0] == b[0]
    ensures Dictionary(a, b) <==> Dictionary(a[1..], b[1..])
  {
    var x, y := a[1..], b[1..];
    if Dictionary(x, y) {
      var n: nat :| n <= |x| && n < |y| && x[..n] == y[..n] && (n == |x| || x[n] < y[n]);
      assert a[..n + 1] == [a[0]] + x[..n] && b[..n + 1] == [b[0]] + y[..n];
    }
    if Dictionary(a, b) {
      var n: nat :| n <= |a| && n < |b| && a[..n] == b[..n] && (n == |a| || a[n] < b[n]);
      assert x[..n - 1] == a[..n][1..] && y[..n - 1] == b[..n][1..];
    }
  }

  lemma {:induction false} LessTotal(a: Bytes, b: Bytes)
    requires a != b
    ensures Less(a, b) <==> !Less(b, a)
  {
    if a != [] && b != [] && a[0] == b[0] {
      assert a == [a[0]] + a[1..] && b == [b[0]] + b[1..];
      LessTotal(a[1..], b[1..]);
    }
  }

  lemma {:induction false} LessTransitive(a: Bytes, b: Bytes, c: Bytes)
    requires Less(a, b) && Less(b, c)
    ensures Less(a, c)
  {
    if a != [] && b != [] && c != [] && a[0] == b[0] == c[0] {
      assert a == [a[0]] + a[1..] && b == [b[0]] + b[1..] && c == [c[0]] + c[1..];
      LessTransitive(a[1..], b[1..], c[1..]);
    }
  }

  // ---- sorted key lists

  ghost predicate Ordered(ks: seq<Bytes>) {
    forall i, j :: 0 <= i < j < |ks| ==> Less(ks[i], ks[j])
  }

  ghost predicate Lists(ks: seq<Bytes>, keys: set<Bytes>) {
    forall k :: k in ks <==> k in keys
  }

  /** There is only one ordered list of a set of keys. */
  lemma {:induction false} OrderedUnique(a: seq<Bytes>, b: seq<Bytes>)
    requires Ordered(a) && Ordered(b) && forall k :: k in a <==> k in b
    ensures a == b
  {
    assert b != [] ==> b[0] in a;
    if a != [] {
      assert a[0] in b;
      if a[0] != b[0] {
        assert Less(a[0], b[0]) && Less(b[0], a[0]);
        LessTotal(a[0], b[0]);
      }
      forall k ensures k in a[1..] <==> k in b[1..] {
        TailMembers(a, k);
        TailMembers(b, k);
      }
      OrderedUnique(a[1..], b[1..]);
      assert a == [a[0]] + a[1..] && b == [b[0]] + b[1..];
    }
  }

  lemma TailMembers(a: seq<Bytes>, k: Bytes)
    requires Ordered(a) && a != []
    ensures k in a[1..] <==> k in a && k != a[0]
  {
    if k in a[1..] {
      var i :| 0 <= i < |a| - 1 && a[1..][i] == k;
      assert Less(a[0], a[i + 1]);
    }
  }

  ghost function SortedKeys(keys: set<Bytes>): (ks: seq<Bytes>)
    ensures Ordered(ks) && Lists(ks, keys)
  {
    SortedExists(keys);
    var ks :| Ordered(ks) && Lists(ks, keys);
    ks
  }

  lemma {:induction false} SortedExists(keys: set<Bytes>)
    ensures exists ks :: Ordered(ks) && Lists(ks, keys)
  {
    if keys == {} {
      assert Ordered([]) && Lists([], keys);
    } else {
      var k :| k in keys;
      SortedExists(keys - {k});
      var ks :| Ordered(ks) && Lists(ks, keys - {k});
      InsertOrdered(k, ks);
      assert Lists(Insert(k, ks), keys);
    }
  }

  function Insert(k: Bytes, ks: seq<Bytes>): seq<Bytes> {
    if ks == [] || Less(k, ks[0]) then [k] + ks else [ks[0]] + Insert(k, ks[1..])
  }

  lemma {:induction false} InsertOrdered(k: Bytes, ks: seq<Bytes>)
    requires Ordered(ks) && k !in ks
    ensures Ordered(Insert(k, ks))
    ensures forall x :: x in Insert(k, ks) <==> x == k || x in ks
  {
    if ks == [] {
    } else if Less(k, ks[0]) {
      forall i | 0 <= i < |ks| ensures Less(k, ks[i]) {
        if i > 0 {
          LessTransitive(k, ks[0], ks[i]);
        }
      }
    } else {
      LessTotal(k, ks[0]);
      InsertOrdered(k, ks[1..]);
      var rest := Insert(k, ks[1..]);
      forall i | 0 <= i < |rest| ensures Less(ks[0], rest[i]) {
        assert rest[i] in rest;
        if rest[i] != k {
          assert rest[i] in ks[1..];
        }
      }
    }
  }

  /** What the library sort promises for a strict total order on distinct keys. */
  method SortKeys(ks: seq<Bytes>) returns (sorted: seq<Bytes>)
    requires forall i, j :: 0 <= i < j < |ks| ==> ks[i] != ks[j]
    ensures Ordered(sorted) && forall k :: k in sorted <==> k in ks
  {
    sorted := [];
    for i := 0 to |ks|
      invariant Ordered(sorted) && forall k :: k in sorted <==> k in ks[..i]
    {
      InsertOrdered(ks[i], sorted);
      sorted := Insert(ks[i], sorted);
    }
    assert ks[..|ks|] == ks;
  }

  /** The keys of a map, visited in any order and then sorted. */
  method KeysOf(m: map<Bytes, Value>) returns (keys: seq<Bytes>)
    ensures keys == SortedKeys(m.Keys)
  {
    keys := [];
    var rest := m.Keys;
    while rest != {}
      invariant rest <= m.Keys
      invariant forall k :: k in keys <==> k in m.Keys && k !in rest
      invariant forall i, j :: 0 <= i < j < |keys| ==> keys[i] != keys[j]
      decreases |rest|
    {
      var k :| k in rest;
      keys, rest := keys + [k], rest - {k};
    }
    keys := SortKeys(keys);
    OrderedUnique(keys, SortedKeys(m.Keys));
  }
}
