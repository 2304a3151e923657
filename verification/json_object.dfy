/** JSON objects over the hash table: value_object_set, get, delete and keys. */
module JsonObject {
  import opened Words
  import opened Utf8
  import opened HashMap
  import opened JsonValue
  import opened JsonEncode
  import opened JsonKeys

  method ObjectDelete(table: Map<Bytes, Value>, key: Bytes)
    requires table.Valid()
    modifies table, table.elements
    ensures table.Valid() && table.Contents() == old(table.Contents()) - {key}
    ensures table.elements == old(table.elements)
  {
    var _ := table.Erase(key);
  }

  /** Deletes the key's old value first, so that the insert always succeeds. */
  method ObjectSet(table: Map<Bytes, Value>, key: Bytes, value: Value)
    requires table.Valid() && 2 * (table.count + 1) <= WORD_TOP
    modifies table, table.elements
    ensures table.Valid() && table.Contents() == old(table.Contents())[key := value]
    ensures table.elements == old(table.elements) || fresh(table.elements)
  {
    hide Indexed, Unbroken;
    CountOf(table.elements[..], table.place);
    ghost var m := table.Contents();
    Smaller(m, key);
    ObjectDelete(table, key);
    CountOf(table.elements[..], table.place);
    var refused := table.Insert(key, value);
    assert (m - {key})[key := value] == m[key := value];
  }

  lemma Smaller(m: map<Bytes, Value>, key: Bytes)
    ensures |m - {key}| <= |m|
  {
    Subset((m - {key}).Keys, m.Keys);
    assert |m - {key}| == |(m - {key}).Keys| && |m| == |m.Keys|;
  }

  method ObjectGet(table: Map<Bytes, Value>, key: Bytes) returns (value: Value)
    requires table.Valid()
    ensures value == if key in table.Contents() then table.Contents()[key] else Undefined
  {
    var i := table.At(key);
    match table.elements[i] {
      case Empty => value := Undefined;
      case Full(_, v) => value := v;
    }
  }

  /** The keys in encoding order depend only on the set of keys, whatever history built the table. */
  method ObjectKeys(table: Map<Bytes, Value>) returns (keys: seq<Bytes>)
    requires table.Valid()
    ensures keys == SortedKeys(table.Contents().Keys)
  {
    var live := table.LiveElements();
    keys := [];
    for i := 0 to |live|
      invariant |keys| == i && forall j :: 0 <= j < i ==> keys[j] == live[j].0
    {
      keys := keys + [live[i].0];
    }
    ghost var m := table.Contents();
    forall k ensures k in keys <==> k in m.Keys {
      if k in m.Keys {
        assert (k, m[k]) in live;
      }
      if k in keys {
        var j :| 0 <= j < |keys| && keys[j] == k;
        assert (live[j].0, live[j].1) in live;
      }
    }
    keys := SortKeys(keys);
    OrderedUnique(keys, SortedKeys(m.Keys));
  }

  /** Encodes an object that lies in a table: its keys are collected and sorted, and each value is looked up. */
  method EncodeTable(table: Map<Bytes, Value>, opts: Options) returns (ok: bool, text: Bytes)
    requires table.Valid()
    ensures ok <==> Defined(Object(table.Contents()))
    ensures ok ==> text == Print(Object(table.Contents()), 0, opts)
  {
    var keys := ObjectKeys(table);
    ghost var m := table.Contents();
    assert forall k :: k in keys <==> k in m;
    hide Indexed, Unbroken, Print, Defined, SortedKeys;
    var members: map<Bytes, Value> := map[];
    var i := 0;
    while i < |keys|
      invariant 0 <= i <= |keys|
      invariant forall k :: k in members <==> k in keys[..i]
      invariant forall k :: k in members ==> k in m && members[k] == m[k]
    {
      var value := ObjectGet(table, keys[i]);
      assert keys[i] in keys;
      members := members[keys[i] := value];
      i := i + 1;
    }
    assert keys[..i] == keys;
    assert members == m;
    ok, text := ValueBufferEncode([], Object(members), opts);
    if ok {
      assert [] + Print(Object(m), 0, opts) == Print(Object(m), 0, opts);
    }
  }

  /** Two tables that hold the same members encode to the same bytes, whatever their histories were. */
  method EncodeAlike(a: Map<Bytes, Value>, b: Map<Bytes, Value>, opts: Options) returns (x: Bytes, y: Bytes)
    requires a.Valid() && b.Valid() && a.Contents() == b.Contents() && Defined(Object(a.Contents()))
    ensures x == y == Print(Object(a.Contents()), 0, opts)
  {
    var ok;
    ok, x := EncodeTable(a, opts);
    ok, y := EncodeTable(b, opts);
  }
}
